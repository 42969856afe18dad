/** The lexicon build pipeline: upper-case each (word, score) pair, keep the
    words the filter accepts (4-7 letters A-Z, and as written also such a
    word followed by one newline), keep the best score per word, sort by score
    descending, then length descending, then alphabetically, and cap the
    list at 100000 rows. The word list and its frequencies come from a
    foreign library, so the pipeline takes them as its input. */
module Lexicon {
  import opened Text
  import opened Slicing

  /** A word with its score in thousandths (already rounded to 3 places). */
  type Row = (string, int)

  const MaxRows := 100000

  /** `WORD_RE.match(w)` for `^[A-Z]{4,7}$` as Python's `re` reads it: `$`
      also matches just before one final newline. */
  predicate IsOkAsWritten(w: string) {
    exists k :: 4 <= k <= 7 && (k == |w| || (k == |w| - 1 && w[k] == '\n')) && AllUpper(w[..k])
  }

  /** The intended filter: 4 to 7 characters, all of them A-Z. */
  predicate IsOk(w: string) {
    4 <= |w| <= 7 && AllUpper(w)
  }

  /** The pattern as written also accepts a word followed by a newline. */
  lemma IsOkAsWrittenAcceptsNewline()
    ensures IsOkAsWritten("ABCD\n") && !IsOk("ABCD\n")
  {
    var w := "ABCD\n";
    assert w[..4] == "ABCD";
    assert AllUpper(w[..4]);
  }

  /** The two filters differ only on a trailing newline. */
  lemma IsOkAsWrittenCharacterised(w: string)
    ensures IsOk(w) ==> IsOkAsWritten(w)
    ensures IsOkAsWritten(w) <==> IsOk(w) || (|w| > 0 && w[|w| - 1] == '\n' && IsOk(w[..|w| - 1]))
  {
    if IsOk(w) {
      assert w[..|w|] == w;
    }
    if |w| > 0 && w[|w| - 1] == '\n' && IsOk(w[..|w| - 1]) {
      assert 4 <= |w| - 1 <= 7 && (|w| - 1 == |w| - 1 && w[|w| - 1] == '\n') && AllUpper(w[..|w| - 1]);
    }
    if IsOkAsWritten(w) {
      var k :| 4 <= k <= 7 && (k == |w| || (k == |w| - 1 && w[k] == '\n')) && AllUpper(w[..k]);
      if k == |w| { assert w[..k] == w; }
    }
  }

  // ---------- filter ----------

  /** The words of `raw` that pass the filter `ok` once upper-cased, with
      their scores. The build runs it with `IsOkAsWritten`. */
  function Kept(raw: seq<Row>, ok: string -> bool): (kept: seq<Row>)
    ensures |kept| <= |raw|
    ensures forall i :: 0 <= i < |kept| ==> ok(kept[i].0)
    ensures forall i :: 0 <= i < |kept| ==> exists j :: 0 <= j < |raw| && kept[i] == (Upper(raw[j].0), raw[j].1)
  {
    if raw == [] then []
    else
      var w := Upper(raw[|raw| - 1].0);
      var rest := Kept(raw[..|raw| - 1], ok);
      assert forall i :: 0 <= i < |rest| ==> exists j :: 0 <= j < |raw| && rest[i] == (Upper(raw[j].0), raw[j].1) by {
        forall i | 0 <= i < |rest| ensures exists j :: 0 <= j < |raw| && rest[i] == (Upper(raw[j].0), raw[j].1) {
          var j :| 0 <= j < |raw| - 1 && rest[i] == (Upper(raw[..|raw| - 1][j].0), raw[..|raw| - 1][j].1);
          assert raw[..|raw| - 1][j] == raw[j];
        }
      }
      if ok(w) then rest + [(w, raw[|raw| - 1].1)] else rest
  }

  /** No word that passes the filter is lost. */
  lemma {:induction false} KeptComplete(raw: seq<Row>, ok: string -> bool, j: nat)
    requires j < |raw| && ok(Upper(raw[j].0))
    ensures (Upper(raw[j].0), raw[j].1) in Kept(raw, ok)
  {
    if j < |raw| - 1 {
      KeptComplete(raw[..|raw| - 1], ok, j);
      assert raw[..|raw| - 1][j] == raw[j];
    }
  }

  /** The filtering loop of the build, with `is_ok` as written. */
  method FilterWords(raw: seq<Row>) returns (kept: seq<Row>)
    ensures kept == Kept(raw, IsOkAsWritten)
  {
    kept := [];
    for i := 0 to |raw|
      invariant kept == Kept(raw[..i], IsOkAsWritten)
    {
      assert raw[..i + 1][..i] == raw[..i];
      var (w, score) := raw[i];
      var upper := Upper(w);
      if IsOkAsWritten(upper) {
        kept := kept + [(upper, score)];
      }
    }
    assert raw[..|raw|] == raw;
  }

  // ---------- deduplication ----------

  /** The words occurring in `rows`. */
  function Words(rows: seq<Row>): set<string> {
    set i | 0 <= i < |rows| :: rows[i].0
  }

  /** The `best` dictionary after the deduplication loop over `kept`. */
  function BestOf(kept: seq<Row>): map<string, int> {
    if kept == [] then map[]
    else
      var (w, s) := kept[|kept| - 1];
      var best := BestOf(kept[..|kept| - 1]);
      if w !in best || s > best[w] then best[w := s] else best
  }

  /** The keys of `best` in insertion order, as a Python dict keeps them. */
  function FirstSeen(kept: seq<Row>): seq<string> {
    if kept == [] then []
    else
      var w := kept[|kept| - 1].0;
      var rest := kept[..|kept| - 1];
      if w !in BestOf(rest) then FirstSeen(rest) + [w] else FirstSeen(rest)
  }

  /** `best` has one entry per word of `kept`, holding the largest score that
      word has in `kept`, and that score comes from an entry of `kept`. */
  lemma {:induction false} BestOfIsMax(kept: seq<Row>)
    ensures BestOf(kept).Keys == Words(kept)
    ensures forall j :: 0 <= j < |kept| ==> kept[j].1 <= BestOf(kept)[kept[j].0]
    ensures forall w :: w in BestOf(kept) ==> (w, BestOf(kept)[w]) in kept
  {
    if kept != [] {
      var rest := kept[..|kept| - 1];
      BestOfIsMax(rest);
      assert kept == rest + [kept[|kept| - 1]];
      assert Words(kept) == Words(rest) + {kept[|kept| - 1].0} by {
        forall w | w in Words(kept) ensures w in Words(rest) + {kept[|kept| - 1].0} {
          var i :| 0 <= i < |kept| && kept[i].0 == w;
          if i < |kept| - 1 { assert rest[i] == kept[i]; }
        }
        forall w | w in Words(rest) ensures w in Words(kept) {
          var i :| 0 <= i < |rest| && rest[i].0 == w;
          assert kept[i] == rest[i];
        }
      }
      forall j | 0 <= j < |kept| ensures kept[j].1 <= BestOf(kept)[kept[j].0] {
        if j < |kept| - 1 { assert rest[j] == kept[j]; }
      }
    }
  }

  /** The insertion order lists every word of `kept` exactly once. */
  lemma {:induction false} FirstSeenIsKeys(kept: seq<Row>)
    ensures forall w :: w in FirstSeen(kept) <==> w in BestOf(kept)
    ensures forall i, j :: 0 <= i < j < |FirstSeen(kept)| ==> FirstSeen(kept)[i] != FirstSeen(kept)[j]
  {
    if kept != [] {
      var rest := kept[..|kept| - 1];
      FirstSeenIsKeys(rest);
    }
  }

  /** The deduplication loop of the build, over a dict that remembers in
      which order its keys were first inserted. */
  method Deduplicate(kept: seq<Row>) returns (best: map<string, int>, order: seq<string>)
    ensures best == BestOf(kept) && order == FirstSeen(kept)
    ensures best.Keys == Words(kept)
    ensures forall j :: 0 <= j < |kept| ==> kept[j].1 <= best[kept[j].0]
    ensures forall w :: w in best ==> (w, best[w]) in kept
  {
    best, order := map[], [];
    for i := 0 to |kept|
      invariant best == BestOf(kept[..i]) && order == FirstSeen(kept[..i])
    {
      assert kept[..i + 1][..i] == kept[..i];
      var (w, s) := kept[i];
      if w !in best || s > best[w] {
        if w !in best {
          order := order + [w];
        }
        best := best[w := s];
      }
    }
    assert kept[..|kept|] == kept;
    BestOfIsMax(kept);
  }

  /** `best.items()` of a dict whose keys were inserted in the order `order`. */
  function Items(best: map<string, int>, order: seq<string>): (rows: seq<Row>)
    requires forall i :: 0 <= i < |order| ==> order[i] in best
    ensures |rows| == |order|
    ensures forall i :: 0 <= i < |rows| ==> rows[i].0 == order[i] && rows[i].1 == best[order[i]]
  {
    seq(|order|, i requires 0 <= i < |order| => (order[i], best[order[i]]))
  }

  /** The items after deduplication: each word once, in insertion order, with
      its best score. */
  function DedupedRows(kept: seq<Row>): (rows: seq<Row>)
    ensures |rows| == |FirstSeen(kept)|
    ensures forall i :: 0 <= i < |rows| ==>
      rows[i].0 == FirstSeen(kept)[i] && rows[i].0 in BestOf(kept) && rows[i].1 == BestOf(kept)[rows[i].0]
  {
    FirstSeenIsKeys(kept);
    Items(BestOf(kept), FirstSeen(kept))
  }

  // ---------- ordering ----------

  /** Python's `<` on strings: lexicographic by code point, a proper prefix first. */
  predicate LexLess(a: string, b: string) {
    if a == [] then b != []
    else if b == [] then false
    else if a[0] != b[0] then a[0] < b[0]
    else LexLess(a[1..], b[1..])
  }

  lemma {:induction false} LexLessIrreflexive(a: string)
    ensures !LexLess(a, a)
  {
    if a != [] { LexLessIrreflexive(a[1..]); }
  }

  lemma {:induction false} LexLessTransitive(a: string, b: string, c: string)
    requires LexLess(a, b) && LexLess(b, c)
    ensures LexLess(a, c)
  {
    if a != [] && b != [] && c != [] && a[0] == b[0] && b[0] == c[0] {
      LexLessTransitive(a[1..], b[1..], c[1..]);
    }
  }

  lemma {:induction false} LexLessTotal(a: string, b: string)
    requires a != b
    ensures LexLess(a, b) || LexLess(b, a)
  {
    if a != [] && b != [] && a[0] == b[0] {
      assert a == [a[0]] + a[1..] && b == [b[0]] + b[1..];
      LexLessTotal(a[1..], b[1..]);
    }
  }

  lemma {:induction false} LexLessAsymmetric(a: string, b: string)
    requires LexLess(a, b)
    ensures !LexLess(b, a)
  {
    if a != [] && b != [] && a[0] == b[0] {
      LexLessAsymmetric(a[1..], b[1..]);
    }
  }

  /** The sort key `(-score, -len(word), word)`: `x` sorts before `y`. */
  predicate Before(x: Row, y: Row) {
    x.1 > y.1 || (x.1 == y.1 && (|x.0| > |y.0| || (|x.0| == |y.0| && LexLess(x.0, y.0))))
  }

  /** `Before` is a strict total order on rows. */
  lemma BeforeStrictTotal(x: Row, y: Row, z: Row)
    ensures !Before(x, x)
    ensures Before(x, y) ==> !Before(y, x)
    ensures Before(x, y) && Before(y, z) ==> Before(x, z)
    ensures x != y ==> Before(x, y) || Before(y, x)
  {
    LexLessIrreflexive(x.0);
    if Before(x, y) && LexLess(x.0, y.0) { LexLessAsymmetric(x.0, y.0); }
    if Before(x, y) && Before(y, z) && LexLess(x.0, y.0) && LexLess(y.0, z.0) {
      LexLessTransitive(x.0, y.0, z.0);
    }
    if x != y && x.0 != y.0 { LexLessTotal(x.0, y.0); }
  }

  /** Not sorting after is transitive. */
  lemma NotBeforeTransitive(x: Row, y: Row, z: Row)
    requires !Before(y, x) && !Before(z, y)
    ensures !Before(z, x)
  {
    BeforeStrictTotal(x, y, z);
    BeforeStrictTotal(y, z, x);
    BeforeStrictTotal(z, y, x);
    BeforeStrictTotal(x, z, y);
  }

  /** Non-decreasing under the sort key. */
  predicate Sorted(rows: seq<Row>) {
    forall i, j :: 0 <= i < j < |rows| ==> !Before(rows[j], rows[i])
  }

  /** Each word at most once. */
  predicate UniqueWords(rows: seq<Row>) {
    forall i, j :: 0 <= i < j < |rows| ==> rows[i].0 != rows[j].0
  }

  /** Inserts `x` into a sorted list at its place. */
  function Insert(x: Row, rows: seq<Row>): seq<Row> {
    if rows == [] then [x]
    else if Before(rows[0], x) then [rows[0]] + Insert(x, rows[1..])
    else [x] + rows
  }

  /** `sorted(...)` under the key `(-score, -len(word), word)`. */
  function SortRows(rows: seq<Row>): seq<Row> {
    if rows == [] then [] else Insert(rows[0], SortRows(rows[1..]))
  }

  /** Inserting adds exactly the one row. */
  lemma {:induction false} InsertPerm(x: Row, rows: seq<Row>)
    ensures multiset(Insert(x, rows)) == multiset(rows) + multiset{x}
  {
    if rows != [] && Before(rows[0], x) {
      InsertPerm(x, rows[1..]);
      assert rows == [rows[0]] + rows[1..];
    }
  }

  /** Every row of the result is `x` or a row of `rows`. */
  lemma {:induction false} InsertMembers(x: Row, rows: seq<Row>)
    ensures forall k :: 0 <= k < |Insert(x, rows)| ==>
      Insert(x, rows)[k] == x || exists m :: 0 <= m < |rows| && rows[m] == Insert(x, rows)[k]
  {
    if rows != [] && Before(rows[0], x) {
      InsertMembers(x, rows[1..]);
      var r := Insert(x, rows);
      forall k | 0 <= k < |r| ensures r[k] == x || exists m :: 0 <= m < |rows| && rows[m] == r[k] {
        if k == 0 {
          assert rows[0] == r[0];
        } else if r[k] != x {
          var m :| 0 <= m < |rows[1..]| && rows[1..][m] == r[k];
          assert rows[m + 1] == r[k];
        }
      }
    }
  }

  /** A row sorting no later than all of a sorted list can lead it. */
  lemma ConsSorted(y: Row, s: seq<Row>)
    requires Sorted(s) && forall k :: 0 <= k < |s| ==> !Before(s[k], y)
    ensures Sorted([y] + s)
  {
  }

  /** Inserting into a sorted list keeps it sorted. */
  lemma {:induction false} InsertSorted(x: Row, rows: seq<Row>)
    requires Sorted(rows)
    ensures Sorted(Insert(x, rows))
  {
    if rows != [] {
      if Before(rows[0], x) {
        var tail := Insert(x, rows[1..]);
        InsertSorted(x, rows[1..]);
        InsertMembers(x, rows[1..]);
        forall k | 0 <= k < |tail| ensures !Before(tail[k], rows[0]) {
          if tail[k] == x {
            BeforeStrictTotal(rows[0], x, x);
          } else {
            var m :| 0 <= m < |rows[1..]| && rows[1..][m] == tail[k];
            assert rows[m + 1] == tail[k];
          }
        }
        ConsSorted(rows[0], tail);
      } else {
        forall k | 0 <= k < |rows| ensures !Before(rows[k], x) {
          if k > 0 { NotBeforeTransitive(x, rows[0], rows[k]); }
        }
        ConsSorted(x, rows);
      }
    } else {
      ConsSorted(x, rows);
    }
  }

  /** Sorting yields a sorted permutation of its input. */
  lemma {:induction false} SortRowsCorrect(rows: seq<Row>)
    ensures Sorted(SortRows(rows))
    ensures multiset(SortRows(rows)) == multiset(rows)
  {
    if rows != [] {
      SortRowsCorrect(rows[1..]);
      InsertSorted(rows[0], SortRows(rows[1..]));
      InsertPerm(rows[0], SortRows(rows[1..]));
      assert rows == [rows[0]] + rows[1..];
    }
  }

  /** A row whose word is new can lead a list with distinct words. */
  lemma ConsUnique(y: Row, s: seq<Row>)
    requires UniqueWords(s) && forall k :: 0 <= k < |s| ==> s[k].0 != y.0
    ensures UniqueWords([y] + s)
  {
  }

  lemma {:induction false} InsertUnique(x: Row, rows: seq<Row>)
    requires UniqueWords(rows) && forall k :: 0 <= k < |rows| ==> rows[k].0 != x.0
    ensures UniqueWords(Insert(x, rows))
  {
    if rows != [] && Before(rows[0], x) {
      var tail := Insert(x, rows[1..]);
      InsertUnique(x, rows[1..]);
      InsertMembers(x, rows[1..]);
      forall k | 0 <= k < |tail| ensures tail[k].0 != rows[0].0 {
        if tail[k] != x {
          var m :| 0 <= m < |rows[1..]| && rows[1..][m] == tail[k];
          assert rows[m + 1] == tail[k];
        }
      }
      ConsUnique(rows[0], tail);
    } else {
      ConsUnique(x, rows);
    }
  }

  /** Sorting rows with distinct words keeps them distinct. */
  lemma {:induction false} SortRowsUnique(rows: seq<Row>)
    requires UniqueWords(rows)
    ensures UniqueWords(SortRows(rows))
  {
    if rows != [] {
      var sorted := SortRows(rows[1..]);
      SortRowsUnique(rows[1..]);
      SortRowsCorrect(rows[1..]);
      forall k | 0 <= k < |sorted| ensures sorted[k].0 != rows[0].0 {
        assert sorted[k] in multiset(rows[1..]);
        var m :| 0 <= m < |rows[1..]| && rows[1..][m] == sorted[k];
        assert rows[m + 1] == sorted[k];
      }
      InsertUnique(rows[0], sorted);
    }
  }

  // ---------- the whole build ----------

  /** `rows[:100000]`. */
  function Cap(rows: seq<Row>): (r: seq<Row>)
    ensures |r| <= MaxRows && |r| <= |rows| && r == rows[..|r|]
    ensures |rows| <= MaxRows ==> r == rows
    ensures |rows| > MaxRows ==> |r| == MaxRows
  {
    rows[..Min(|rows|, MaxRows)]
  }

  /** The rows the build writes, in order. */
  function Build(raw: seq<Row>, ok: string -> bool): seq<Row> {
    Cap(SortRows(DedupedRows(Kept(raw, ok))))
  }

  /** The deduplicated rows: distinct words, every word of `kept` with its best score. */
  lemma DedupedRowsFacts(kept: seq<Row>)
    ensures UniqueWords(DedupedRows(kept))
    ensures Words(DedupedRows(kept)) == Words(kept)
    ensures forall x :: x in DedupedRows(kept) ==> x in kept && x.0 in BestOf(kept) && x.1 == BestOf(kept)[x.0]
  {
    var d := DedupedRows(kept);
    FirstSeenIsKeys(kept);
    BestOfIsMax(kept);
    forall w | w in Words(kept) ensures w in Words(d) {
      var k :| 0 <= k < |FirstSeen(kept)| && FirstSeen(kept)[k] == w;
      assert d[k].0 == w;
    }
  }

  /** Every row written is a deduplicated row. */
  lemma BuildFromDeduped(raw: seq<Row>, ok: string -> bool)
    ensures forall x :: x in Build(raw, ok) ==> x in DedupedRows(Kept(raw, ok))
  {
    var d := DedupedRows(Kept(raw, ok));
    var sorted := SortRows(d);
    SortRowsCorrect(d);
    forall x | x in Build(raw, ok) ensures x in d {
      assert x in sorted;
      assert x in multiset(d);
    }
  }

  /** The shape of the output: at most 100000 rows, ordered by score, then
      length, then alphabet, each word once. */
  lemma BuildOrdered(raw: seq<Row>, ok: string -> bool)
    ensures |Build(raw, ok)| <= MaxRows
    ensures Sorted(Build(raw, ok)) && UniqueWords(Build(raw, ok))
  {
    var d := DedupedRows(Kept(raw, ok));
    DedupedRowsFacts(Kept(raw, ok));
    SortRowsCorrect(d);
    SortRowsUnique(d);
  }

  /** One written row: a kept entry carrying its word's best score. */
  lemma BuildRowFaithful(raw: seq<Row>, ok: string -> bool, x: Row)
    requires x in Build(raw, ok)
    ensures x in Kept(raw, ok) && ok(x.0)
    ensures x.0 in BestOf(Kept(raw, ok)) && x.1 == BestOf(Kept(raw, ok))[x.0]
  {
    var kept := Kept(raw, ok);
    BuildFromDeduped(raw, ok);
    DedupedRowsFacts(kept);
    var k :| 0 <= k < |kept| && kept[k] == x;
  }

  /** No row is invented: every row written is an upper-cased input word
      passing the filter, with the highest score that word has there. */
  lemma BuildFaithful(raw: seq<Row>, ok: string -> bool)
    ensures forall i :: 0 <= i < |Build(raw, ok)| ==> ok(Build(raw, ok)[i].0) && Build(raw, ok)[i] in Kept(raw, ok)
    ensures forall i, j :: 0 <= i < |Build(raw, ok)| && 0 <= j < |Kept(raw, ok)| && Kept(raw, ok)[j].0 == Build(raw, ok)[i].0 ==>
      Kept(raw, ok)[j].1 <= Build(raw, ok)[i].1
  {
    var r := Build(raw, ok);
    BestOfIsMax(Kept(raw, ok));
    forall i | 0 <= i < |r| ensures ok(r[i].0) && r[i] in Kept(raw, ok) && r[i].1 == BestOf(Kept(raw, ok))[r[i].0] {
      BuildRowFaithful(raw, ok, r[i]);
    }
  }

  /** A row of a sorted list that the cap cuts off sorts no earlier than any row kept. */
  lemma CapDropsLast(s: seq<Row>, x: Row)
    requires Sorted(s) && x in s && x !in Cap(s)
    ensures |Cap(s)| == MaxRows
    ensures forall i :: 0 <= i < |Cap(s)| ==> !Before(x, Cap(s)[i])
  {
  }

  /** Each kept word has its deduplicated row. */
  lemma DedupedHasWord(kept: seq<Row>, w: string)
    requires w in Words(kept)
    ensures w in BestOf(kept) && (w, BestOf(kept)[w]) in DedupedRows(kept)
  {
    DedupedRowsFacts(kept);
    var d := DedupedRows(kept);
    var k :| 0 <= k < |d| && d[k].0 == w;
  }

  /** What the build promises of the words it drops: none, unless the cap
      is reached, and then only words sorting no earlier than every row kept. */
  lemma BuildComplete(raw: seq<Row>, ok: string -> bool, w: string)
    requires w in Words(Kept(raw, ok)) && w !in Words(Build(raw, ok))
    ensures |Build(raw, ok)| == MaxRows
    ensures w in BestOf(Kept(raw, ok))
    ensures forall i :: 0 <= i < |Build(raw, ok)| ==> !Before((w, BestOf(Kept(raw, ok))[w]), Build(raw, ok)[i])
  {
    var kept := Kept(raw, ok);
    var d := DedupedRows(kept);
    var sorted := SortRows(d);
    DedupedHasWord(kept, w);
    var x := (w, BestOf(kept)[w]);
    SortRowsCorrect(d);
    assert x in multiset(sorted);
    var r := Build(raw, ok);
    assert x !in r by {
      assert forall i :: 0 <= i < |r| ==> r[i].0 in Words(r);
    }
    CapDropsLast(sorted, x);
  }

  /** The build as the program runs it: filter with `is_ok` as written,
      deduplicate, sort, cap. */
  method BuildLexicon(raw: seq<Row>) returns (rows: seq<Row>)
    ensures rows == Build(raw, IsOkAsWritten)
  {
    var kept := FilterWords(raw);
    var best, order := Deduplicate(kept);
    FirstSeenIsKeys(kept);
    var items := Items(best, order);
    rows := SortRows(items);
    rows := rows[..Min(|rows|, MaxRows)];
  }

  // ---------- the filter as written against the intended one ----------

  /** No input word ends in a newline once upper-cased. */
  predicate NoTrailingNewline(raw: seq<Row>) {
    forall j :: 0 <= j < |raw| ==> |Upper(raw[j].0)| == 0 || Upper(raw[j].0)[|Upper(raw[j].0)| - 1] != '\n'
  }

  /** Without trailing newlines both filters keep the same entries. */
  lemma {:induction false} KeptAgrees(raw: seq<Row>)
    requires NoTrailingNewline(raw)
    ensures Kept(raw, IsOkAsWritten) == Kept(raw, IsOk)
  {
    if raw != [] {
      KeptAgrees(raw[..|raw| - 1]);
      IsOkAsWrittenCharacterised(Upper(raw[|raw| - 1].0));
    }
  }

  /** Without trailing newlines the build as written writes exactly what the
      build with the intended filter writes. */
  lemma BuildAgrees(raw: seq<Row>)
    requires NoTrailingNewline(raw)
    ensures Build(raw, IsOkAsWritten) == Build(raw, IsOk)
  {
    KeptAgrees(raw);
  }

  /** Every word the build as written writes is an intended word, possibly
      followed by one newline. */
  lemma BuildAsWrittenWords(raw: seq<Row>)
    ensures forall i :: 0 <= i < |Build(raw, IsOkAsWritten)| ==>
      var w := Build(raw, IsOkAsWritten)[i].0;
      IsOk(w) || (|w| > 0 && w[|w| - 1] == '\n' && IsOk(w[..|w| - 1]))
  {
    BuildFaithful(raw, IsOkAsWritten);
    forall i | 0 <= i < |Build(raw, IsOkAsWritten)| {
      IsOkAsWrittenCharacterised(Build(raw, IsOkAsWritten)[i].0);
    }
  }

  /** A word list holding "abcd\n": the build as written keeps it as
      "ABCD\n", the intended filter drops it. */
  lemma BuildKeepsNewline(raw: seq<Row>)
    requires raw == [("abcd\n", 3000)]
    ensures Kept(raw, IsOkAsWritten) == [("ABCD\n", 3000)]
    ensures Kept(raw, IsOk) == []
    ensures Build(raw, IsOkAsWritten) == [("ABCD\n", 3000)] && Build(raw, IsOk) == []
  {
    assert Upper(raw[0].0) == "ABCD\n";
    IsOkAsWrittenAcceptsNewline();
    assert raw[..0] == [];
    var kept := Kept(raw, IsOkAsWritten);
    assert kept[..0] == [];
    assert BestOf(kept) == map["ABCD\n" := 3000];
    assert FirstSeen(kept) == ["ABCD\n"];
    assert DedupedRows(kept) == kept;
    assert SortRows(kept) == kept;
  }
}
