/*
 * Text spans and the two list operations the extractors share: the stable
 * sort into reading order (top to bottom, then left to right) and the
 * grouping of sorted spans into rows by their y coordinate.
 *
 * Coordinates and sizes are `real`: the program only compares, adds and
 * averages them.
 */
module TextSpans {
  import opened Common

  /** A piece of text placed on the page (`TextSpan`). */
  datatype TextSpan = TextSpan(text: string, x: real, y: real, fontSize: real, fontName: Option<string>)

  function Abs(r: real): real { if r < 0.0 then -r else r }

  // ---------------------------------------------------------------------------
  // Reading order

  /** `a` strictly precedes `b`: higher on the page, or on the same y and further left. */
  predicate Precedes(a: TextSpan, b: TextSpan)
  {
    a.y > b.y || (a.y == b.y && a.x < b.x)
  }

  /** No span is strictly preceded by a later one. */
  predicate InReadingOrder(s: seq<TextSpan>)
  {
    forall i, j | 0 <= i < j < |s| :: !Precedes(s[j], s[i])
  }

  /** `x` placed after every element of `t` it does not strictly precede. */
  function Insert(t: seq<TextSpan>, x: TextSpan): (r: seq<TextSpan>)
    ensures multiset(r) == multiset(t) + multiset{x}
    ensures |r| == |t| + 1
  {
    if t == [] || !Precedes(x, t[|t| - 1]) then t + [x]
    else
      var init, last := t[..|t| - 1], t[|t| - 1];
      assert t == init + [last];
      Insert(init, x) + [last]
  }

  /**
   * The stable sort `sort_by` performs with the comparator "y descending,
   * then x ascending": spans that compare equal keep their input order.
   */
  function StableSort(s: seq<TextSpan>): (r: seq<TextSpan>)
    ensures multiset(r) == multiset(s)
    ensures |r| == |s|
  {
    if s == [] then []
    else
      assert s == s[..|s| - 1] + [s[|s| - 1]];
      Insert(StableSort(s[..|s| - 1]), s[|s| - 1])
  }

  lemma PrecedesTransitive(a: TextSpan, b: TextSpan, c: TextSpan)
    requires !Precedes(b, a) && !Precedes(c, b)
    ensures !Precedes(c, a)
  {
  }

  lemma {:induction false} InsertKeepsOrder(t: seq<TextSpan>, x: TextSpan)
    requires InReadingOrder(t)
    ensures InReadingOrder(Insert(t, x))
    ensures forall i | 0 <= i < |Insert(t, x)| :: Insert(t, x)[i] == x || Insert(t, x)[i] in t
    decreases |t|
  {
    if t == [] || !Precedes(x, t[|t| - 1]) {
      var r := t + [x];
      forall i, j | 0 <= i < j < |r| ensures !Precedes(r[j], r[i]) {
        if j == |t| && i < |t| - 1 {
          PrecedesTransitive(r[i], t[|t| - 1], x);
        }
      }
    } else {
      var init, last := t[..|t| - 1], t[|t| - 1];
      assert InReadingOrder(init);
      InsertKeepsOrder(init, x);
      var u := Insert(init, x);
      var r := u + [last];
      forall i, j | 0 <= i < j < |r| ensures !Precedes(r[j], r[i]) {
        if j == |u| {
          if u[i] != x {
            assert u[i] in init;
            var k :| 0 <= k < |init| && init[k] == u[i];
            assert t[k] == u[i];
          }
        }
      }
      forall i | 0 <= i < |r| ensures r[i] == x || r[i] in t {
        if i < |u| && r[i] != x {
          assert u[i] in init;
        }
      }
    }
  }

  /** The sort leaves the spans in reading order. */
  lemma {:induction false} StableSortSorted(s: seq<TextSpan>)
    ensures InReadingOrder(StableSort(s))
  {
    if s != [] {
      StableSortSorted(s[..|s| - 1]);
      InsertKeepsOrder(StableSort(s[..|s| - 1]), s[|s| - 1]);
    }
  }

  /** The spans of `s` placed exactly at `(x, y)`, in their order in `s`. */
  function AtPlace(s: seq<TextSpan>, x: real, y: real): (r: seq<TextSpan>)
    ensures |r| <= |s|
  {
    if s == [] then []
    else
      var last := s[|s| - 1];
      AtPlace(s[..|s| - 1], x, y) + (if last.x == x && last.y == y then [last] else [])
  }

  lemma {:induction false} AtPlaceAppend(a: seq<TextSpan>, b: seq<TextSpan>, x: real, y: real)
    ensures AtPlace(a + b, x, y) == AtPlace(a, x, y) + AtPlace(b, x, y)
    decreases |b|
  {
    if b == [] {
      assert a + b == a;
    } else {
      var init := b[..|b| - 1];
      assert (a + b)[..|a + b| - 1] == a + init;
      AtPlaceAppend(a, init, x, y);
    }
  }

  /** Inserting `e` adds it after the spans already at its place. */
  lemma {:induction false} InsertAtPlace(t: seq<TextSpan>, e: TextSpan, x: real, y: real)
    ensures AtPlace(Insert(t, e), x, y) == AtPlace(t, x, y) + AtPlace([e], x, y)
    decreases |t|
  {
    if t == [] || !Precedes(e, t[|t| - 1]) {
      AtPlaceAppend(t, [e], x, y);
    } else {
      var init, last := t[..|t| - 1], t[|t| - 1];
      InsertAtPlace(init, e, x, y);
      AtPlaceAppend(Insert(init, e), [last], x, y);
      LastSplit(t, x, y);
      PrecedesApart(e, last, x, y);
      SwapAroundEmpty(AtPlace(init, x, y), AtPlace([e], x, y), AtPlace([last], x, y));
    }
  }

  /** The spans at a place of `t` are those of all but its last, then those of its last. */
  lemma LastSplit(t: seq<TextSpan>, x: real, y: real)
    requires t != []
    ensures AtPlace(t, x, y) == AtPlace(t[..|t| - 1], x, y) + AtPlace([t[|t| - 1]], x, y)
  {
    assert [t[|t| - 1]][..0] == [];
  }

  /** A span strictly before another is never at the same place. */
  lemma PrecedesApart(a: TextSpan, b: TextSpan, x: real, y: real)
    requires Precedes(a, b)
    ensures AtPlace([a], x, y) == [] || AtPlace([b], x, y) == []
  {
    assert [a][..0] == [] && [b][..0] == [];
  }

  lemma SwapAroundEmpty(a: seq<TextSpan>, b: seq<TextSpan>, c: seq<TextSpan>)
    requires b == [] || c == []
    ensures a + c + b == a + b + c
  {
    if b == [] {
      assert a + c + b == a + c;
    } else {
      assert a + c + b == a + b;
    }
  }

  /**
   * The sort is stable: the spans that share a place, which the comparator
   * holds equal, come out in the order they went in.
   */
  lemma {:induction false} StableSortIsStable(s: seq<TextSpan>, x: real, y: real)
    ensures AtPlace(StableSort(s), x, y) == AtPlace(s, x, y)
  {
    if s != [] {
      var init := s[..|s| - 1];
      StableSortIsStable(init, x, y);
      InsertAtPlace(StableSort(init), s[|s| - 1], x, y);
    }
  }

  /** Two spans at one place, with different texts, keep their order. */
  lemma StableExample()
    ensures var a := TextSpan("a", 1.0, 2.0, 10.0, None);
      var b := TextSpan("b", 1.0, 2.0, 10.0, None);
      var c := TextSpan("c", 0.0, 5.0, 10.0, None);
      StableSort([b, c, a]) == [c, b, a]
  {
  }

  /** The sort loop: each span inserted in turn. */
  method SortForReading(s: seq<TextSpan>) returns (r: seq<TextSpan>)
    ensures r == StableSort(s)
    ensures InReadingOrder(r) && multiset(r) == multiset(s)
  {
    r := [];
    for i := 0 to |s|
      invariant r == StableSort(s[..i])
    {
      SortPrefixStep(s, i);
      r := Insert(r, s[i]);
    }
    assert s[..|s|] == s;
    StableSortSorted(s);
  }

  /** Sorting one more span of `s` inserts it into the sorted prefix. */
  lemma SortPrefixStep(s: seq<TextSpan>, i: nat)
    requires i < |s|
    ensures StableSort(s[..i + 1]) == Insert(StableSort(s[..i]), s[i])
  {
    assert s[..i + 1][..i] == s[..i];
  }

  // ---------------------------------------------------------------------------
  // Sorting by one coordinate

  /** The x coordinate of a span, the key of the sorts within a line. */
  function XOf(s: TextSpan): real { s.x }

  /** A coordinate as its own sort key. */
  function Coordinate(r: real): real { r }

  /** `t` is in ascending order of `key`. */
  predicate SortedBy<T>(t: seq<T>, key: T -> real)
  {
    forall i, j | 0 <= i < j < |t| :: key(t[i]) <= key(t[j])
  }

  /** `x` placed after every element of `t` whose key is not above its own. */
  function InsertBy<T>(t: seq<T>, x: T, key: T -> real): (r: seq<T>)
    ensures multiset(r) == multiset(t) + multiset{x}
    ensures |r| == |t| + 1
  {
    if t == [] || key(t[|t| - 1]) <= key(x) then t + [x]
    else
      assert t == t[..|t| - 1] + [t[|t| - 1]];
      InsertBy(t[..|t| - 1], x, key) + [t[|t| - 1]]
  }

  /**
   * The stable `sort_by` with the comparator "`key` ascending": elements
   * with equal keys keep their input order.
   */
  function SortBy<T>(s: seq<T>, key: T -> real): (r: seq<T>)
    ensures multiset(r) == multiset(s)
    ensures |r| == |s|
  {
    if s == [] then []
    else
      assert s == s[..|s| - 1] + [s[|s| - 1]];
      InsertBy(SortBy(s[..|s| - 1], key), s[|s| - 1], key)
  }

  lemma {:induction false} InsertByBounded<T>(t: seq<T>, x: T, key: T -> real, b: real)
    requires forall i | 0 <= i < |t| :: key(t[i]) <= b
    requires key(x) <= b
    ensures forall i | 0 <= i < |InsertBy(t, x, key)| :: key(InsertBy(t, x, key)[i]) <= b
    decreases |t|
  {
    if !(t == [] || key(t[|t| - 1]) <= key(x)) {
      InsertByBounded(t[..|t| - 1], x, key, b);
    }
  }

  lemma {:induction false} InsertBySorted<T>(t: seq<T>, x: T, key: T -> real)
    requires SortedBy(t, key)
    ensures SortedBy(InsertBy(t, x, key), key)
    decreases |t|
  {
    if !(t == [] || key(t[|t| - 1]) <= key(x)) {
      var init, last := t[..|t| - 1], t[|t| - 1];
      InsertBySorted(init, x, key);
      InsertByBounded(init, x, key, key(last));
    }
  }

  /** The sort leaves its input in ascending order of the key. */
  lemma {:induction false} SortBySorted<T>(s: seq<T>, key: T -> real)
    ensures SortedBy(SortBy(s, key), key)
    decreases |s|
  {
    if s != [] {
      SortBySorted(s[..|s| - 1], key);
      InsertBySorted(SortBy(s[..|s| - 1], key), s[|s| - 1], key);
    }
  }

  // ---------------------------------------------------------------------------
  // Rows

  /** The rows concatenated back together. */
  function Flatten(rows: seq<seq<TextSpan>>): seq<TextSpan>
  {
    if rows == [] then [] else Flatten(rows[..|rows| - 1]) + rows[|rows| - 1]
  }

  /**
   * The grouping loop from span `i` on: `cur` is the row being built, whose
   * first span sits at `y`; a span within `tol` of `y` joins it, any other
   * span closes it and starts a new row.
   */
  function RowsF(s: seq<TextSpan>, i: nat, tol: real, rows: seq<seq<TextSpan>>, cur: seq<TextSpan>): (r: seq<seq<TextSpan>>)
    requires i <= |s|
    decreases |s| - i
  {
    if i == |s| then (if cur != [] then rows + [cur] else rows)
    else if cur != [] && Abs(s[i].y - cur[0].y) <= tol then RowsF(s, i + 1, tol, rows, cur + [s[i]])
    else RowsF(s, i + 1, tol, if cur != [] then rows + [cur] else rows, [s[i]])
  }

  /** The rows of already-sorted spans, `tol` the largest y distance to a row's first span. */
  function Rows(s: seq<TextSpan>, tol: real): seq<seq<TextSpan>>
  {
    RowsF(s, 0, tol, [], [])
  }

  /** Every span of `row` lies within `tol` of its first span. */
  predicate RowWithin(row: seq<TextSpan>, tol: real)
  {
    forall j | 0 <= j < |row| :: Abs(row[j].y - row[0].y) <= tol
  }

  /** Every row is non-empty, and every span lies within `tol` of its row's first span. */
  predicate WellFormedRows(rows: seq<seq<TextSpan>>, tol: real)
  {
    forall k | 0 <= k < |rows| :: rows[k] != [] && RowWithin(rows[k], tol)
  }

  lemma WellFormedAppend(rows: seq<seq<TextSpan>>, row: seq<TextSpan>, tol: real)
    requires WellFormedRows(rows, tol) && row != [] && RowWithin(row, tol)
    ensures WellFormedRows(rows + [row], tol)
  {
  }

  lemma FlattenAppend(rows: seq<seq<TextSpan>>, row: seq<TextSpan>)
    ensures Flatten(rows + [row]) == Flatten(rows) + row
  {
    assert (rows + [row])[..|rows|] == rows;
  }

  /** Every row is non-empty. */
  predicate NonEmptyRows(rows: seq<seq<TextSpan>>)
  {
    forall k | 0 <= k < |rows| :: rows[k] != []
  }

  lemma {:induction false} RowsCover(s: seq<TextSpan>, i: nat, tol: real, rows: seq<seq<TextSpan>>, cur: seq<TextSpan>)
    requires i <= |s|
    requires Flatten(rows) + cur == s[..i]
    requires NonEmptyRows(rows)
    requires i > 0 ==> cur != []
    ensures Flatten(RowsF(s, i, tol, rows, cur)) == s
    ensures NonEmptyRows(RowsF(s, i, tol, rows, cur))
    decreases |s| - i
  {
    var rows' := if cur != [] then rows + [cur] else rows;
    if cur != [] {
      FlattenAppend(rows, cur);
    } else {
      assert Flatten(rows) + cur == Flatten(rows);
    }
    if i == |s| {
      assert s[..i] == s;
    } else {
      assert s[..i + 1] == s[..i] + [s[i]];
      if cur != [] && Abs(s[i].y - cur[0].y) <= tol {
        RowsCover(s, i + 1, tol, rows, cur + [s[i]]);
      } else {
        RowsCover(s, i + 1, tol, rows', [s[i]]);
      }
    }
  }

  lemma {:induction false} RowsInvariant(s: seq<TextSpan>, i: nat, tol: real, rows: seq<seq<TextSpan>>, cur: seq<TextSpan>)
    requires i <= |s| && tol >= 0.0
    requires WellFormedRows(rows, tol)
    requires RowWithin(cur, tol)
    ensures WellFormedRows(RowsF(s, i, tol, rows, cur), tol)
    decreases |s| - i
  {
    var rows' := if cur != [] then rows + [cur] else rows;
    if cur != [] {
      WellFormedAppend(rows, cur, tol);
    }
    if i < |s| {
      if cur != [] && Abs(s[i].y - cur[0].y) <= tol {
        assert RowWithin(cur + [s[i]], tol);
        RowsInvariant(s, i + 1, tol, rows, cur + [s[i]]);
      } else {
        assert RowWithin([s[i]], tol);
        RowsInvariant(s, i + 1, tol, rows', [s[i]]);
      }
    }
  }

  /**
   * Grouping loses and reorders nothing, whatever the tolerance: the rows
   * concatenated are the spans and no row is empty.
   */
  lemma RowsFlatten(s: seq<TextSpan>, tol: real)
    ensures Flatten(Rows(s, tol)) == s
    ensures NonEmptyRows(Rows(s, tol))
  {
    RowsCover(s, 0, tol, [], []);
  }

  /**
   * For a tolerance that is not negative, every span also lies within `tol`
   * of its row's first span.
   */
  lemma RowsPartition(s: seq<TextSpan>, tol: real)
    requires tol >= 0.0
    ensures Flatten(Rows(s, tol)) == s
    ensures WellFormedRows(Rows(s, tol), tol)
  {
    RowsFlatten(s, tol);
    RowsInvariant(s, 0, tol, [], []);
  }

  /** Consecutive rows start more than `tol` apart: each row was opened by a span that did not fit the previous one. */
  predicate RowsSeparated(rows: seq<seq<TextSpan>>, tol: real)
  {
    forall k | 0 < k < |rows| :: Apart(rows[k - 1], rows[k], tol)
  }

  /** Row `b` starts more than `tol` away from where row `a` starts. */
  predicate Apart(a: seq<TextSpan>, b: seq<TextSpan>, tol: real)
  {
    a != [] && b != [] && Abs(b[0].y - a[0].y) > tol
  }

  lemma SeparatedAppend(rows: seq<seq<TextSpan>>, row: seq<TextSpan>, tol: real)
    requires RowsSeparated(rows, tol)
    requires rows != [] ==> Apart(rows[|rows| - 1], row, tol)
    ensures RowsSeparated(rows + [row], tol)
  {
  }

  lemma {:induction false} RowsSeparatedInvariant(s: seq<TextSpan>, i: nat, tol: real, rows: seq<seq<TextSpan>>, cur: seq<TextSpan>)
    requires i <= |s|
    requires RowsSeparated(rows, tol)
    requires rows != [] ==> Apart(rows[|rows| - 1], cur, tol)
    ensures RowsSeparated(RowsF(s, i, tol, rows, cur), tol)
    decreases |s| - i
  {
    if i == |s| {
      if cur != [] {
        SeparatedAppend(rows, cur, tol);
      }
    } else {
      if cur != [] && Abs(s[i].y - cur[0].y) <= tol {
        RowsSeparatedInvariant(s, i + 1, tol, rows, cur + [s[i]]);
      } else if cur != [] {
        SeparatedAppend(rows, cur, tol);
        RowsSeparatedInvariant(s, i + 1, tol, rows + [cur], [s[i]]);
      } else {
        RowsSeparatedInvariant(s, i + 1, tol, rows, [s[i]]);
      }
    }
  }

  /** A row ends exactly where a span lies more than `tol` from the row's first span. */
  lemma RowsApart(s: seq<TextSpan>, tol: real)
    ensures RowsSeparated(Rows(s, tol), tol)
  {
    RowsSeparatedInvariant(s, 0, tol, [], []);
  }

  /** The grouping loop (`cluster_into_rows` and the line grouping of page text). */
  method GroupRows(s: seq<TextSpan>, tol: real) returns (rows: seq<seq<TextSpan>>)
    ensures rows == Rows(s, tol)
  {
    rows := [];
    var cur: seq<TextSpan> := [];
    for i := 0 to |s|
      invariant RowsF(s, i, tol, rows, cur) == Rows(s, tol)
    {
      if cur != [] && Abs(s[i].y - cur[0].y) <= tol {
        cur := cur + [s[i]];
      } else {
        if cur != [] {
          rows := rows + [cur];
        }
        cur := [s[i]];
      }
    }
    if cur != [] {
      rows := rows + [cur];
    }
  }

  /** The texts of the spans, in order. */
  function Texts(row: seq<TextSpan>): (ts: seq<string>)
    ensures |ts| == |row| && forall j | 0 <= j < |row| :: ts[j] == row[j].text
  {
    if row == [] then [] else [row[0].text] + Texts(row[1..])
  }
}
