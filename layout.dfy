/*
 * Layout classification: the spans of a page grouped into lines, each line
 * classified by its largest font size against the page's body size and by
 * how many x clusters it has, and consecutive lines merged into headings,
 * paragraphs and tables.
 */
module Layout {
  import opened Common
  import opened TextSpans
  import opened Tables

  /** `PageElement`. */
  datatype PageElement =
    | Heading(level: nat, text: string)
    | Paragraph(text: string)
    | TableElement(table: Table)

  /** `LineKind`. */
  datatype LineKind = HeadingLine(level: nat) | TableCandidate | ParagraphLine

  /** `ClassifiedLine`: a line's kind, its spans sorted by x, its mean y and its text. */
  datatype ClassifiedLine = ClassifiedLine(kind: LineKind, spans: seq<TextSpan>, y: real, text: string)

  /** The body size when there are no spans. */
  const DEFAULT_BODY_SIZE: real := 12.0

  /** How far apart two x positions of one cluster may be. */
  const X_GAP: real := 10.0

  /** The smallest heading ratio, and those of levels 2 and 1. */
  const HEADING_RATIO: real := 1.3
  const LEVEL2_RATIO: real := 1.4
  const LEVEL1_RATIO: real := 1.8

  /** Paragraph lines further apart than this many body sizes start a new paragraph. */
  const PARAGRAPH_GAP: real := 1.5

  const I32_MIN: int := -0x8000_0000
  const I32_MAX: int := 0x7FFF_FFFF

  // ---------------------------------------------------------------------------
  // Lines

  /** `cluster_into_lines`: the rows of the spans in reading order. */
  function LinesOf(spans: seq<TextSpan>, tol: real): seq<seq<TextSpan>>
  {
    Rows(StableSort(spans), tol)
  }

  method ClusterIntoLines(spans: seq<TextSpan>, tol: real) returns (lines: seq<seq<TextSpan>>)
    ensures lines == LinesOf(spans, tol)
    ensures Flatten(lines) == StableSort(spans) && NonEmptyRows(lines)
  {
    var sorted := SortForReading(spans);
    lines := GroupRows(sorted, tol);
    RowsFlatten(sorted, tol);
  }

  // ---------------------------------------------------------------------------
  // Body font size

  /** `f64::round`: the nearest integer, halves away from zero. */
  function RoundHalfAway(r: real): (n: int)
    ensures -0.5 <= n as real - r <= 0.5
    ensures n as real - r == 0.5 ==> r > 0.0
    ensures r - n as real == 0.5 ==> r < 0.0
  {
    if r >= 0.0 then (r + 0.5).Floor else -((-r + 0.5).Floor)
  }

  /** A float-to-`i32` cast: out-of-range values saturate. */
  function SaturateI32(n: int): (r: int)
    ensures I32_MIN <= r <= I32_MAX
    ensures I32_MIN <= n <= I32_MAX ==> r == n
    ensures n < I32_MIN ==> r == I32_MIN
    ensures n > I32_MAX ==> r == I32_MAX
  {
    if n < I32_MIN then I32_MIN else if n > I32_MAX then I32_MAX else n
  }

  /** A span's size quantised to half points: twice its size, rounded. */
  function SizeKey(s: TextSpan): int
  {
    SaturateI32(RoundHalfAway(s.fontSize * 2.0))
  }

  /** The characters of the spans whose size key is `k`. */
  function Weight(spans: seq<TextSpan>, k: int): nat
  {
    if spans == [] then 0
    else
      var last := spans[|spans| - 1];
      Weight(spans[..|spans| - 1], k) + (if SizeKey(last) == k then |last.text| else 0)
  }

  /**
   * Key `a` wins over key `b` in `max_by_key` over the ascending keys of
   * the frequency map: it weighs more, or as much and is larger.
   */
  predicate Beats(spans: seq<TextSpan>, a: int, b: int)
  {
    Weight(spans, a) > Weight(spans, b) || (Weight(spans, a) == Weight(spans, b) && a > b)
  }

  /** The key that wins among those of the first `n` spans. */
  function BestKeyIn(spans: seq<TextSpan>, n: nat): (k: int)
    requires 0 < n <= |spans|
    ensures exists i | 0 <= i < n :: SizeKey(spans[i]) == k
    ensures forall i | 0 <= i < n :: SizeKey(spans[i]) == k || Beats(spans, k, SizeKey(spans[i]))
  {
    if n == 1 then SizeKey(spans[0])
    else
      var b, c := BestKeyIn(spans, n - 1), SizeKey(spans[n - 1]);
      if Beats(spans, c, b) then c else b
  }

  /** `compute_body_font_size`: half the winning key, or 12 when there are no spans. */
  function BodyFontSizeF(lines: seq<seq<TextSpan>>): real
  {
    var s := Flatten(lines);
    if s == [] then DEFAULT_BODY_SIZE else BestKeyIn(s, |s|) as real / 2.0
  }

  /** The key of every span and the total characters per key: the `BTreeMap` the source fills. */
  function Freq(spans: seq<TextSpan>): (m: map<int, nat>)
  {
    if spans == [] then map[]
    else
      var m, last := Freq(spans[..|spans| - 1]), spans[|spans| - 1];
      var k := SizeKey(last);
      m[k := (if k in m then m[k] else 0) + |last.text|]
  }

  /** The frequency map has a key for exactly the spans' keys, each mapped to its weight. */
  lemma {:induction false} FreqWeights(spans: seq<TextSpan>)
    ensures forall k :: k in Freq(spans) <==> exists i | 0 <= i < |spans| :: SizeKey(spans[i]) == k
    ensures forall k | k in Freq(spans) :: Freq(spans)[k] == Weight(spans, k)
    decreases |spans|
  {
    if spans != [] {
      var init := spans[..|spans| - 1];
      FreqWeights(init);
      forall k ensures k in Freq(spans) <==> exists i | 0 <= i < |spans| :: SizeKey(spans[i]) == k {
        if k in Freq(init) {
          var i :| 0 <= i < |init| && SizeKey(init[i]) == k;
          assert SizeKey(spans[i]) == k;
        }
        if exists i | 0 <= i < |spans| :: SizeKey(spans[i]) == k {
          var i :| 0 <= i < |spans| && SizeKey(spans[i]) == k;
          if i < |init| {
            assert SizeKey(init[i]) == k;
          }
        }
      }
      var key := SizeKey(spans[|spans| - 1]);
      if key !in Freq(init) {
        WeightAbsent(init, key);
      }
    }
  }

  /** Weights add no characters for keys no span has. */
  lemma {:induction false} WeightAbsent(spans: seq<TextSpan>, k: int)
    requires forall i | 0 <= i < |spans| :: SizeKey(spans[i]) != k
    ensures Weight(spans, k) == 0
    decreases |spans|
  {
    if spans != [] {
      WeightAbsent(spans[..|spans| - 1], k);
    }
  }

  /**
   * The body size is half the key of some span, whose key carries the most
   * characters, the largest key among equally heavy ones; 12 without spans.
   * No other key has both properties.
   */
  lemma BodySizeIsHeaviest(lines: seq<seq<TextSpan>>, k: int)
    requires var s := Flatten(lines);
      && (exists i | 0 <= i < |s| :: SizeKey(s[i]) == k)
      && forall i | 0 <= i < |s| :: SizeKey(s[i]) == k || Beats(s, k, SizeKey(s[i]))
    ensures BodyFontSizeF(lines) == k as real / 2.0
  {
    var s := Flatten(lines);
    var b := BestKeyIn(s, |s|);
  }

  /** The frequency loop of `compute_body_font_size`: every span's characters added to its key's count. */
  method FillFrequencies(lines: seq<seq<TextSpan>>) returns (freq: map<int, nat>)
    ensures freq == Freq(Flatten(lines))
  {
    freq := map[];
    for r := 0 to |lines|
      invariant freq == Freq(Flatten(lines[..r]))
    {
      assert Flatten(lines[..r + 1]) == Flatten(lines[..r]) + lines[r] by {
        assert lines[..r + 1][..r] == lines[..r];
      }
      freq := CountLine(freq, Flatten(lines[..r]), lines[r]);
    }
    assert lines[..|lines|] == lines;
  }

  /** The inner loop of the frequency count, over the spans of one line. */
  method CountLine(freq0: map<int, nat>, before: seq<TextSpan>, line: seq<TextSpan>) returns (freq: map<int, nat>)
    requires freq0 == Freq(before)
    ensures freq == Freq(before + line)
  {
    freq := freq0;
    assert before + line[..0] == before;
    for j := 0 to |line|
      invariant freq == Freq(before + line[..j])
    {
      var span := line[j];
      var key := SizeKey(span);
      ghost var prefix := before + line[..j];
      assert (prefix + [span])[..|prefix|] == prefix;
      assert prefix + [span] == before + line[..j + 1];
      freq := freq[key := (if key in freq then freq[key] else 0) + |span.text|];
    }
    assert line[..|line|] == line;
  }

  /** Some key of a non-empty set (the order does not matter: the winner is unique). */
  method PickKey(keys: set<int>) returns (k: int)
    requires keys != {}
    ensures k in keys
  {
    assert (forall j :: j !in keys) ==> keys == {};
    k :| k in keys;
  }

  /** `max_by_key` over the map: the key with the largest count, the largest key among equal counts. */
  method HeaviestKey(freq: map<int, nat>) returns (best: Option<int>)
    ensures best.None? <==> freq == map[]
    ensures best.Some? ==> best.value in freq
    ensures best.Some? ==> forall k | k in freq ::
      k == best.value || freq[k] < freq[best.value] || (freq[k] == freq[best.value] && k < best.value)
  {
    var keys := freq.Keys;
    best := None;
    while keys != {}
      invariant keys <= freq.Keys
      invariant best.None? <==> keys == freq.Keys
      invariant best.Some? ==> best.value in freq && best.value !in keys
      invariant best.Some? ==> forall k | k in freq && k !in keys ::
        k == best.value || freq[k] < freq[best.value] || (freq[k] == freq[best.value] && k < best.value)
      decreases keys
    {
      var k := PickKey(keys);
      if best.None? || freq[k] > freq[best.value] || (freq[k] == freq[best.value] && k > best.value) {
        best := Some(k);
      }
      keys := keys - {k};
    }
    if best.None? {
      assert freq.Keys == {};
    }
  }

  /** The winner of the frequency map is the winner of the spans' keys. */
  lemma HeaviestIsBody(lines: seq<seq<TextSpan>>, best: Option<int>)
    requires var freq := Freq(Flatten(lines));
      && (best.None? <==> freq == map[])
      && (best.Some? ==> best.value in freq)
      && (best.Some? ==> forall k | k in freq ::
           k == best.value || freq[k] < freq[best.value] || (freq[k] == freq[best.value] && k < best.value))
    ensures BodyFontSizeF(lines) == if best.None? then DEFAULT_BODY_SIZE else best.value as real / 2.0
  {
    var s := Flatten(lines);
    FreqWeights(s);
    if best.Some? {
      var k := best.value;
      forall i | 0 <= i < |s| ensures SizeKey(s[i]) == k || Beats(s, k, SizeKey(s[i])) {
        assert SizeKey(s[i]) in Freq(s);
      }
      BodySizeIsHeaviest(lines, k);
    }
  }

  /** `compute_body_font_size`. */
  method ComputeBodyFontSize(lines: seq<seq<TextSpan>>) returns (size: real)
    ensures size == BodyFontSizeF(lines)
  {
    var freq := FillFrequencies(lines);
    var best := HeaviestKey(freq);
    HeaviestIsBody(lines, best);
    size := if best.Some? then best.value as real / 2.0 else DEFAULT_BODY_SIZE;
  }

  // ---------------------------------------------------------------------------
  // X clusters

  /** The x positions of the spans, in order. */
  function Xs(spans: seq<TextSpan>): (xs: seq<real>)
    ensures |xs| == |spans| && forall i | 0 <= i < |spans| :: xs[i] == spans[i].x
  {
    if spans == [] then [] else Xs(spans[..|spans| - 1]) + [spans[|spans| - 1].x]
  }

  /**
   * The counting loop of `count_x_clusters` over sorted positions from `i`:
   * a position more than `X_GAP` from the last cluster's first position
   * opens a new cluster.
   */
  function ClustersFrom(xs: seq<real>, i: nat, last: real, n: nat): (r: nat)
    requires i <= |xs|
    ensures n <= r <= n + (|xs| - i)
    decreases |xs| - i
  {
    if i == |xs| then n
    else if Abs(xs[i] - last) > X_GAP then ClustersFrom(xs, i + 1, xs[i], n + 1)
    else ClustersFrom(xs, i + 1, last, n)
  }

  /** `count_x_clusters`. */
  function XClusters(spans: seq<TextSpan>): nat
  {
    var xs := SortBy(Xs(spans), Coordinate);
    if xs == [] then 0 else ClustersFrom(xs, 1, xs[0], 1)
  }

  /** No spans, no clusters; otherwise between one and one per span. */
  lemma XClustersBounds(spans: seq<TextSpan>)
    ensures XClusters(spans) == 0 <==> spans == []
    ensures spans != [] ==> 1 <= XClusters(spans) <= |spans|
  {
  }

  /** Positions all within `X_GAP` of the first (sorted) one make one cluster. */
  lemma {:induction false} OneCluster(xs: seq<real>, i: nat, last: real, n: nat)
    requires i <= |xs|
    requires forall j | i <= j < |xs| :: Abs(xs[j] - last) <= X_GAP
    ensures ClustersFrom(xs, i, last, n) == n
    decreases |xs| - i
  {
    if i < |xs| {
      OneCluster(xs, i + 1, last, n);
    }
  }

  /** Positions 50 and 52 share a cluster; 200 and 350 each open one. */
  lemma XClustersExample()
    ensures ClustersFrom([50.0, 52.0, 200.0, 350.0], 1, 50.0, 1) == 3
  {
  }

  /** `count_x_clusters` with its loop. */
  method CountXClusters(spans: seq<TextSpan>) returns (clusters: nat)
    ensures clusters == XClusters(spans)
  {
    if spans == [] {
      return 0;
    }
    var xs := SortBy(Xs(spans), Coordinate);
    clusters := 1;
    var last := xs[0];
    for i := 1 to |xs|
      invariant ClustersFrom(xs, i, last, clusters) == XClusters(spans)
    {
      var x := xs[i];
      if Abs(x - last) > X_GAP {
        clusters := clusters + 1;
        last := x;
      }
    }
  }

  // ---------------------------------------------------------------------------
  // Classifying one line

  function RMax(a: real, b: real): real { if a >= b then a else b }

  /** The fold of `f64::max` over the sizes from 0. */
  function MaxSize(spans: seq<TextSpan>): (m: real)
    ensures m >= 0.0
    ensures forall i | 0 <= i < |spans| :: spans[i].fontSize <= m
    ensures m == 0.0 || exists i | 0 <= i < |spans| :: spans[i].fontSize == m
  {
    if spans == [] then 0.0
    else
      var init := spans[..|spans| - 1];
      var m := MaxSize(init);
      assert m != 0.0 ==> exists i | 0 <= i < |init| :: spans[i].fontSize == m by {
        if m != 0.0 {
          var i :| 0 <= i < |init| && init[i].fontSize == m;
          assert spans[i] == init[i];
        }
      }
      RMax(m, spans[|spans| - 1].fontSize)
  }

  /** The y positions added up. */
  function SumY(spans: seq<TextSpan>): real
  {
    if spans == [] then 0.0 else SumY(spans[..|spans| - 1]) + spans[|spans| - 1].y
  }

  /** The texts of the spans, each trimmed. */
  function Trimmed(spans: seq<TextSpan>): (ts: seq<string>)
    ensures |ts| == |spans| && forall i | 0 <= i < |spans| :: ts[i] == Trim(spans[i].text)
  {
    seq(|spans|, i requires 0 <= i < |spans| => Trim(spans[i].text))
  }

  /** The largest size over the body size, or 1 when the body size is not positive. */
  function Ratio(maxSize: real, body: real): real
  {
    if body > 0.0 then maxSize / body else 1.0
  }

  /** The kind of a line from its ratio and its number of x clusters. */
  function KindOf(ratio: real, clusters: nat): (k: LineKind)
    ensures k.HeadingLine? <==> ratio >= HEADING_RATIO && clusters <= 2
    ensures k.TableCandidate? <==> clusters >= 3
    ensures k.ParagraphLine? <==> ratio < HEADING_RATIO && clusters <= 2
    ensures k.HeadingLine? ==> 1 <= k.level <= 3
  {
    if ratio >= HEADING_RATIO && clusters <= 2 then
      HeadingLine(if ratio >= LEVEL1_RATIO then 1 else if ratio >= LEVEL2_RATIO then 2 else 3)
    else if clusters >= 3 then TableCandidate
    else ParagraphLine
  }

  /** `classify_line`. */
  function ClassifyLineF(spans: seq<TextSpan>, body: real): (line: ClassifiedLine)
    requires spans != []
  {
    var sorted := SortBy(spans, XOf);
    ClassifiedLine(
      KindOf(Ratio(MaxSize(sorted), body), XClusters(sorted)),
      sorted,
      SumY(sorted) / |sorted| as real,
      Join(Trimmed(sorted), " "))
  }

  /** A larger ratio never gives a deeper heading. */
  lemma LevelMonotone(r1: real, r2: real, c1: nat, c2: nat)
    requires r1 >= r2 && KindOf(r2, c2).HeadingLine? && c1 <= 2
    ensures KindOf(r1, c1).HeadingLine? && KindOf(r1, c1).level <= KindOf(r2, c2).level
  {
  }

  /** A line whose spans are all at most the body size (a positive one) is never a heading. */
  lemma {:induction false} BodySizedLineIsNoHeading(spans: seq<TextSpan>, body: real)
    requires spans != [] && body > 0.0
    requires forall i | 0 <= i < |spans| :: spans[i].fontSize <= body
    ensures !ClassifyLineF(spans, body).kind.HeadingLine?
  {
    var sorted := SortBy(spans, XOf);
    var m := MaxSize(sorted);
    assert m <= body by {
      if m != 0.0 {
        var i :| 0 <= i < |sorted| && sorted[i].fontSize == m;
        assert sorted[i] in multiset(spans);
      }
    }
    RatioAtMostOne(m, body);
  }

  lemma RatioAtMostOne(m: real, body: real)
    requires 0.0 <= m <= body && body > 0.0
    ensures Ratio(m, body) <= 1.0
  {
    assert m / body * body == m;
  }

  /** The classified line holds the same spans, sorted by x, and its text is their trimmed texts joined by spaces. */
  lemma ClassifiedLineKeeps(spans: seq<TextSpan>, body: real)
    requires spans != []
    ensures var line := ClassifyLineF(spans, body);
      && multiset(line.spans) == multiset(spans)
      && SortedBy(line.spans, XOf)
      && line.text == Join(Trimmed(line.spans), " ")
  {
    SortBySorted(spans, XOf);
  }

  /** Every line classified against the body size. */
  function ClassifyAll(lines: seq<seq<TextSpan>>, body: real): (r: seq<ClassifiedLine>)
    requires NonEmptyRows(lines)
    ensures |r| == |lines| && forall k | 0 <= k < |lines| :: r[k] == ClassifyLineF(lines[k], body)
  {
    seq(|lines|, k requires 0 <= k < |lines| && lines[k] != [] => ClassifyLineF(lines[k], body))
  }

  // ---------------------------------------------------------------------------
  // Merging lines

  /** Where the run of table candidates starting at `i` ends. */
  function TableRunEnd(lines: seq<ClassifiedLine>, i: nat): (j: nat)
    requires i <= |lines|
    ensures i <= j <= |lines|
    ensures forall m | i <= m < j :: lines[m].kind.TableCandidate?
    ensures j == |lines| || !lines[j].kind.TableCandidate?
    decreases |lines| - i
  {
    if i < |lines| && lines[i].kind.TableCandidate? then TableRunEnd(lines, i + 1) else i
  }

  /** Line `m` lies more than 1.5 body sizes below (or above) line `m - 1`. */
  predicate Breaks(lines: seq<ClassifiedLine>, m: nat, body: real)
    requires 0 < m < |lines|
  {
    Abs(lines[m - 1].y - lines[m].y) > body * PARAGRAPH_GAP
  }

  /** Where the paragraph run continued at `k` ends: at a line of another kind or at a large gap. */
  function ParagraphRunEnd(lines: seq<ClassifiedLine>, k: nat, body: real): (j: nat)
    requires 0 < k <= |lines|
    ensures k <= j <= |lines|
    ensures forall m | k <= m < j :: lines[m].kind.ParagraphLine? && !Breaks(lines, m, body)
    ensures j < |lines| ==> !lines[j].kind.ParagraphLine? || Breaks(lines, j, body)
    decreases |lines| - k
  {
    if k < |lines| && lines[k].kind.ParagraphLine? && !Breaks(lines, k, body) then ParagraphRunEnd(lines, k + 1, body)
    else k
  }

  /** Where the group of lines starting at `i` ends: one iteration of `merge_lines` always takes at least one line. */
  function GroupEnd(lines: seq<ClassifiedLine>, i: nat, body: real): (j: nat)
    requires i < |lines|
    ensures i < j <= |lines|
  {
    match lines[i].kind
    case HeadingLine(_) => i + 1
    case TableCandidate => TableRunEnd(lines, i)
    case ParagraphLine => ParagraphRunEnd(lines, i + 1, body)
  }

  /** The spans of the lines, line after line (`flat_map`). */
  function LineSpans(lines: seq<ClassifiedLine>): seq<TextSpan>
  {
    if lines == [] then [] else LineSpans(lines[..|lines| - 1]) + lines[|lines| - 1].spans
  }

  /** The texts of the lines. */
  function LineTexts(lines: seq<ClassifiedLine>): (ts: seq<string>)
    ensures |ts| == |lines| && forall i | 0 <= i < |lines| :: ts[i] == lines[i].text
  {
    if lines == [] then [] else LineTexts(lines[..|lines| - 1]) + [lines[|lines| - 1].text]
  }

  /** The element (or none) the group `lines[i..j]` produces. */
  function GroupElement(lines: seq<ClassifiedLine>, i: nat, j: nat): (es: seq<PageElement>)
    requires i < j <= |lines|
    ensures |es| <= 1
  {
    match lines[i].kind
    case HeadingLine(level) => [Heading(level, lines[i].text)]
    case TableCandidate =>
      if j - i >= 2 then [TableElement(FromSpansF(LineSpans(lines[i..j])))]
      else if XClusters(lines[i].spans) >= 4 then [TableElement(FromSpansF(lines[i].spans))]
      else [Paragraph(lines[i].text)]
    case ParagraphLine =>
      var text := Join(LineTexts(lines[i..j]), " ");
      if Trim(text) != [] then [Paragraph(text)] else []
  }

  /** `merge_lines` from line `i` on. */
  function MergeF(lines: seq<ClassifiedLine>, i: nat, body: real): (es: seq<PageElement>)
    requires i <= |lines|
    ensures |es| <= |lines| - i
    decreases |lines| - i
  {
    if i == |lines| then []
    else
      var j := GroupEnd(lines, i, body);
      GroupElement(lines, i, j) + MergeF(lines, j, body)
  }

  /** The starts of the groups from line `i` on, in order. */
  function GroupStarts(lines: seq<ClassifiedLine>, i: nat, body: real): (gs: seq<nat>)
    requires i <= |lines|
    decreases |lines| - i
  {
    if i == |lines| then [] else [i] + GroupStarts(lines, GroupEnd(lines, i, body), body)
  }

  /**
   * `merge_lines` consumes every line exactly once, in order: the groups
   * start at `i`, each ends where the next starts, each is non-empty, and
   * the last ends at the last line.
   */
  lemma {:induction false} GroupsTile(lines: seq<ClassifiedLine>, i: nat, body: real)
    requires i <= |lines|
    ensures var gs := GroupStarts(lines, i, body);
      && (i < |lines| ==> gs != [] && gs[0] == i)
      && (forall k | 0 <= k < |gs| :: i <= gs[k] < |lines|)
      && (forall k | 0 < k < |gs| :: gs[k] == GroupEnd(lines, gs[k - 1], body))
      && (gs != [] ==> GroupEnd(lines, gs[|gs| - 1], body) == |lines|)
      && (forall k | 0 < k < |gs| :: gs[k - 1] < gs[k])
    decreases |lines| - i
  {
    if i < |lines| {
      GroupsTile(lines, GroupEnd(lines, i, body), body);
    }
  }

  /** The headings of a list of elements, as level and text. */
  function Headings(es: seq<PageElement>): seq<(nat, string)>
  {
    if es == [] then []
    else (if es[0].Heading? then [(es[0].level, es[0].text)] else []) + Headings(es[1..])
  }

  /** The heading lines from line `i` on, as level and text. */
  function HeadingLines(lines: seq<ClassifiedLine>, i: nat): seq<(nat, string)>
    requires i <= |lines|
    decreases |lines| - i
  {
    if i == |lines| then []
    else (if lines[i].kind.HeadingLine? then [(lines[i].kind.level, lines[i].text)] else []) + HeadingLines(lines, i + 1)
  }

  lemma {:induction false} HeadingsConcat(a: seq<PageElement>, b: seq<PageElement>)
    ensures Headings(a + b) == Headings(a) + Headings(b)
    decreases |a|
  {
    if a != [] {
      assert (a + b)[0] == a[0];
      assert (a + b)[1..] == a[1..] + b;
      HeadingsConcat(a[1..], b);
    } else {
      assert a + b == b;
    }
  }

  lemma {:induction false} NoHeadingLines(lines: seq<ClassifiedLine>, i: nat, j: nat)
    requires i <= j <= |lines|
    requires forall m | i <= m < j :: !lines[m].kind.HeadingLine?
    ensures HeadingLines(lines, i) == HeadingLines(lines, j)
    decreases j - i
  {
    if i < j {
      NoHeadingLines(lines, i + 1, j);
    }
  }

  /** Headings pass through `merge_lines` unchanged and in order, and nothing else becomes a heading. */
  lemma {:induction false} HeadingsKept(lines: seq<ClassifiedLine>, i: nat, body: real)
    requires i <= |lines|
    ensures Headings(MergeF(lines, i, body)) == HeadingLines(lines, i)
    decreases |lines| - i
  {
    if i < |lines| {
      var j := GroupEnd(lines, i, body);
      HeadingsKept(lines, j, body);
      HeadingsConcat(GroupElement(lines, i, j), MergeF(lines, j, body));
      GroupHeadings(lines, i, j);
      if !lines[i].kind.HeadingLine? {
        NoHeadingLines(lines, i, j);
      }
    }
  }

  /** A group yields a heading exactly when it starts with a heading line. */
  lemma GroupHeadings(lines: seq<ClassifiedLine>, i: nat, j: nat)
    requires i < j <= |lines|
    ensures Headings(GroupElement(lines, i, j)) == if lines[i].kind.HeadingLine? then [(lines[i].kind.level, lines[i].text)] else []
  {
    var g := GroupElement(lines, i, j);
    if g != [] {
      assert g[1..] == [];
    }
  }

  /** Without table candidates there are no tables. */
  lemma {:induction false} NoCandidatesNoTables(lines: seq<ClassifiedLine>, i: nat, body: real)
    requires i <= |lines|
    requires forall m | i <= m < |lines| :: !lines[m].kind.TableCandidate?
    ensures forall e | e in MergeF(lines, i, body) :: !e.TableElement?
    decreases |lines| - i
  {
    if i < |lines| {
      NoCandidatesNoTables(lines, GroupEnd(lines, i, body), body);
    }
  }

  /**
   * A run of two or more table candidates becomes one table of all their
   * spans; a lone candidate becomes a table only with four or more
   * clusters, and is otherwise a paragraph of its text.
   */
  lemma TableRuns(lines: seq<ClassifiedLine>, i: nat, body: real)
    requires i < |lines| && lines[i].kind.TableCandidate?
    ensures var j := TableRunEnd(lines, i);
      && MergeF(lines, i, body)[0] == (
        if j - i >= 2 then TableElement(FromSpansF(LineSpans(lines[i..j])))
        else if XClusters(lines[i].spans) >= 4 then TableElement(FromSpansF(lines[i].spans))
        else Paragraph(lines[i].text))
      && MergeF(lines, i, body)[1..] == MergeF(lines, j, body)
  {
  }

  /**
   * A paragraph element holds the texts of consecutive paragraph lines
   * joined by spaces, each line within 1.5 body sizes of the one before, and
   * the run stops at a line of another kind or at a larger gap.
   */
  lemma ParagraphRuns(lines: seq<ClassifiedLine>, i: nat, body: real)
    requires i < |lines| && lines[i].kind.ParagraphLine?
    ensures var j := ParagraphRunEnd(lines, i + 1, body);
      var text := Join(LineTexts(lines[i..j]), " ");
      && (forall m | i <= m < j :: lines[m].kind.ParagraphLine?)
      && (forall m | i < m < j :: !Breaks(lines, m, body))
      && (j < |lines| ==> !lines[j].kind.ParagraphLine? || Breaks(lines, j, body))
      && MergeF(lines, i, body) == (if Trim(text) != [] then [Paragraph(text)] else []) + MergeF(lines, j, body)
  {
  }

  /** `merge_lines`, with the index `i` and the inner loops of each kind. */
  method MergeLines(lines: seq<ClassifiedLine>, body: real) returns (elements: seq<PageElement>)
    ensures elements == MergeF(lines, 0, body)
  {
    elements := [];
    var i := 0;
    while i < |lines|
      invariant i <= |lines|
      invariant elements + MergeF(lines, i, body) == MergeF(lines, 0, body)
      decreases |lines| - i
    {
      ghost var start := i;
      var group: seq<PageElement>;
      match lines[i].kind {
        case HeadingLine(level) =>
          group := [Heading(level, lines[i].text)];
          i := i + 1;
          assert i == GroupEnd(lines, start, body) && group == GroupElement(lines, start, i);
        case TableCandidate =>
          group, i := MergeTableRun(lines, i);
          assert i == GroupEnd(lines, start, body);
        case ParagraphLine =>
          group, i := MergeParagraphRun(lines, i, body);
          assert i == GroupEnd(lines, start, body);
      }
      MergeStep(lines, body, start, elements, group);
      elements := elements + group;
    }
  }

  /** Emitting the group at `start` moves the loop's invariant to the next group. */
  lemma MergeStep(lines: seq<ClassifiedLine>, body: real, start: nat, elements: seq<PageElement>, group: seq<PageElement>)
    requires start < |lines| && group == GroupElement(lines, start, GroupEnd(lines, start, body))
    requires elements + MergeF(lines, start, body) == MergeF(lines, 0, body)
    ensures (elements + group) + MergeF(lines, GroupEnd(lines, start, body), body) == MergeF(lines, 0, body)
  {
    var j := GroupEnd(lines, start, body);
    var rest := MergeF(lines, j, body);
    assert MergeF(lines, start, body) == group + rest;
    Reassociate(elements, group, rest, MergeF(lines, start, body), MergeF(lines, 0, body));
  }

  lemma Reassociate<T>(front: seq<T>, middle: seq<T>, back: seq<T>, tail: seq<T>, whole: seq<T>)
    requires front + tail == whole && tail == middle + back
    ensures (front + middle) + back == whole
  {
  }

  /** The table-candidate arm of `merge_lines`. */
  method MergeTableRun(lines: seq<ClassifiedLine>, start: nat) returns (group: seq<PageElement>, i: nat)
    requires start < |lines| && lines[start].kind.TableCandidate?
    ensures i == TableRunEnd(lines, start) && group == GroupElement(lines, start, i)
  {
    i := start;
    while i < |lines| && lines[i].kind.TableCandidate?
      invariant start <= i <= |lines|
      invariant TableRunEnd(lines, i) == TableRunEnd(lines, start)
      decreases |lines| - i
    {
      i := i + 1;
    }
    var count := i - start;
    if count >= 2 {
      var table := FromSpans(LineSpans(lines[start..i]));
      group := [TableElement(table)];
    } else {
      var clusters := CountXClusters(lines[start].spans);
      if clusters >= 4 {
        var table := FromSpans(lines[start].spans);
        group := [TableElement(table)];
      } else {
        group := [Paragraph(lines[start].text)];
      }
    }
  }

  /** The paragraph arm of `merge_lines`: lines gathered until another kind or a large gap. */
  method MergeParagraphRun(lines: seq<ClassifiedLine>, start: nat, body: real) returns (group: seq<PageElement>, i: nat)
    requires start < |lines| && lines[start].kind.ParagraphLine?
    ensures i == ParagraphRunEnd(lines, start + 1, body) && group == GroupElement(lines, start, i)
  {
    var parts;
    parts, i := GatherParagraph(lines, start, body);
    var text := Join(parts, " ");
    if Trim(text) != [] {
      group := [Paragraph(text)];
    } else {
      group := [];
    }
    ParagraphGroup(lines, start, i);
  }

  /** The loop of the paragraph arm: the texts of the lines of the run, and where it ends. */
  method GatherParagraph(lines: seq<ClassifiedLine>, start: nat, body: real) returns (parts: seq<string>, i: nat)
    requires start < |lines| && lines[start].kind.ParagraphLine?
    ensures start < i == ParagraphRunEnd(lines, start + 1, body) && parts == LineTexts(lines[start..i])
  {
    parts := [];
    var prevY := lines[start].y;
    i := start;
    while i < |lines| && lines[i].kind.ParagraphLine?
      invariant start <= i <= |lines| && |parts| == i - start
      invariant parts == LineTexts(lines[start..i])
      invariant prevY == lines[if i == start then start else i - 1].y
      invariant i > start ==> ParagraphRunEnd(lines, i, body) == ParagraphRunEnd(lines, start + 1, body)
      decreases |lines| - i
    {
      var gap := Abs(prevY - lines[i].y);
      if parts != [] && gap > body * PARAGRAPH_GAP {
        assert Breaks(lines, i, body);
        break;
      }
      LineTextsSnoc(lines, start, i);
      parts := parts + [lines[i].text];
      prevY := lines[i].y;
      i := i + 1;
    }
  }

  lemma LineTextsSnoc(lines: seq<ClassifiedLine>, start: nat, i: nat)
    requires start <= i < |lines|
    ensures LineTexts(lines[start..i + 1]) == LineTexts(lines[start..i]) + [lines[i].text]
  {
    assert lines[start..i + 1][..i - start] == lines[start..i];
  }

  lemma ParagraphGroup(lines: seq<ClassifiedLine>, i: nat, j: nat)
    requires i < j <= |lines| && lines[i].kind.ParagraphLine?
    ensures var text := Join(LineTexts(lines[i..j]), " ");
      GroupElement(lines, i, j) == if Trim(text) != [] then [Paragraph(text)] else []
  {
  }

  // ---------------------------------------------------------------------------
  // The whole page

  /** `classify_spans`. */
  function ClassifySpansF(spans: seq<TextSpan>): seq<PageElement>
  {
    var s := NonBlank(spans);
    if s == [] then []
    else
      var lines := LinesOf(s, RowTolerance(s));
      RowsFlatten(StableSort(s), RowTolerance(s));
      var body := BodyFontSizeF(lines);
      MergeF(ClassifyAll(lines, body), 0, body)
  }

  /** Empty or all-blank input gives no elements. */
  lemma BlankPageIsEmpty(spans: seq<TextSpan>)
    requires forall i | 0 <= i < |spans| :: Blank(spans[i])
    ensures ClassifySpansF(spans) == []
  {
    NonBlankEmpty(spans);
  }

  /** There are no more elements than lines, and the headings are exactly the lines classified as headings. */
  lemma ClassifySpansHeadings(spans: seq<TextSpan>)
    requires NonBlank(spans) != []
    ensures var s := NonBlank(spans); var lines := LinesOf(s, RowTolerance(s));
      && NonEmptyRows(lines)
      && |ClassifySpansF(spans)| <= |lines|
      && Headings(ClassifySpansF(spans)) == HeadingLines(ClassifyAll(lines, BodyFontSizeF(lines)), 0)
  {
    var s := NonBlank(spans);
    RowsFlatten(StableSort(s), RowTolerance(s));
    var lines := LinesOf(s, RowTolerance(s));
    HeadingsKept(ClassifyAll(lines, BodyFontSizeF(lines)), 0, BodyFontSizeF(lines));
  }

  /** `classify_spans`: filter, group into lines, measure the body size, classify each line, merge. */
  method ClassifySpans(spans: seq<TextSpan>) returns (elements: seq<PageElement>)
    ensures elements == ClassifySpansF(spans)
  {
    var s := NonBlank(spans);
    if s == [] {
      return [];
    }
    var tolerance := RowTolerance(s);
    var lines := ClusterIntoLines(s, tolerance);
    var body := ComputeBodyFontSize(lines);
    var classified := ClassifyAll(lines, body);
    elements := MergeLines(classified, body);
  }
}
