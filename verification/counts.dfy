/** pandas `value_counts()` on the genre tokens, followed by `reset_index()`
    and the relabelling to (`Genre`, `Count`): one row per distinct token
    with the number of times it occurs, largest counts first. */
module Counts {

  datatype GenreCount = GenreCount(genre: string, count: nat)

  /** The `Genre` column of the table. */
  function GenreColumn(table: seq<GenreCount>): (g: seq<string>)
    ensures |g| == |table|
    ensures forall i :: 0 <= i < |table| ==> g[i] == table[i].genre
  {
    seq(|table|, i requires 0 <= i < |table| => table[i].genre)
  }

  predicate DistinctGenres(table: seq<GenreCount>) {
    forall i, j :: 0 <= i < j < |table| ==> table[i].genre != table[j].genre
  }

  predicate NonIncreasing(table: seq<GenreCount>) {
    forall i, j :: 0 <= i < j < |table| ==> table[i].count >= table[j].count
  }

  function SumCounts(table: seq<GenreCount>): nat
    decreases |table|
  {
    if table == [] then 0 else table[0].count + SumCounts(table[1..])
  }

  /** Every row counts its genre correctly, and the genres are exactly the tokens. */
  ghost predicate CountsTokens(tokens: seq<string>, table: seq<GenreCount>) {
    && DistinctGenres(table)
    && (forall t :: t in tokens <==> t in GenreColumn(table))
    && (forall i :: 0 <= i < |table| ==> table[i].count == multiset(tokens)[table[i].genre])
  }

  /** What the (`Genre`, `Count`) table of lines 44-47 is, whatever order
      pandas gives rows of equal count: each distinct token once, with its
      number of occurrences (at least one), counts adding up to the number
      of tokens, rows by non-increasing count. */
  ghost predicate IsFrequencyTable(tokens: seq<string>, table: seq<GenreCount>) {
    && CountsTokens(tokens, table)
    && (forall i :: 0 <= i < |table| ==> table[i].count >= 1)
    && SumCounts(table) == |tokens|
    && NonIncreasing(table)
  }

  /** Position of the row for `t`, or `|table|` when there is none. */
  function Find(table: seq<GenreCount>, t: string): (k: nat)
    ensures k <= |table|
    ensures forall j :: 0 <= j < k ==> table[j].genre != t
    ensures k < |table| ==> table[k].genre == t
    ensures k < |table| <==> t in GenreColumn(table)
    decreases |table|
  {
    if table == [] then 0
    else if table[0].genre == t then 0
    else 1 + Find(table[1..], t)
  }

  lemma {:induction false} SumAppend(table: seq<GenreCount>, x: GenreCount)
    ensures SumCounts(table + [x]) == SumCounts(table) + x.count
    decreases |table|
  {
    if table != [] {
      assert (table + [x])[1..] == table[1..] + [x];
      SumAppend(table[1..], x);
    }
  }

  lemma {:induction false} SumUpdate(table: seq<GenreCount>, k: nat, x: GenreCount)
    requires k < |table|
    ensures SumCounts(table[k := x]) + table[k].count == SumCounts(table) + x.count
    decreases |table|
  {
    if k > 0 {
      assert table[k := x][1..] == table[1..][k - 1 := x];
      SumUpdate(table[1..], k - 1, x);
    }
  }

  /** Counting one more occurrence of `t`: its row's count goes up by one,
      or a row `(t, 1)` is added at the end when `t` is new. */
  function Bump(table: seq<GenreCount>, t: string): (r: seq<GenreCount>)
    ensures SumCounts(r) == SumCounts(table) + 1
  {
    var k := Find(table, t);
    if k < |table| then
      SumUpdate(table, k, GenreCount(t, table[k].count + 1));
      table[k := GenreCount(t, table[k].count + 1)]
    else
      SumAppend(table, GenreCount(t, 1));
      table + [GenreCount(t, 1)]
  }

  /** One more token counted keeps the table correct. */
  lemma BumpCounts(init: seq<string>, before: seq<GenreCount>, last: string)
    requires CountsTokens(init, before)
    ensures CountsTokens(init + [last], Bump(before, last))
  {
    var tokens := init + [last];
    var k := Find(before, last);
    var table := Bump(before, last);
    assert multiset(tokens) == multiset(init) + multiset{last};
    assert forall t :: t in tokens <==> t in init || t == last;
    if k < |before| {
      assert GenreColumn(table) == GenreColumn(before);
      forall i | 0 <= i < |table| && i != k
        ensures table[i].genre != last
      {
        assert before[k].genre == last;
      }
    } else {
      assert GenreColumn(table) == GenreColumn(before) + [last];
      assert multiset(init)[last] == 0;
    }
  }

  /** The counting pass: tokens tallied in first-seen order. */
  function Tally(tokens: seq<string>): (table: seq<GenreCount>)
    ensures CountsTokens(tokens, table)
    ensures SumCounts(table) == |tokens|
    decreases |tokens|
  {
    if tokens == [] then []
    else
      var init := tokens[..|tokens| - 1];
      var last := tokens[|tokens| - 1];
      assert tokens == init + [last];
      var before := Tally(init);
      BumpCounts(init, before, last);
      Bump(before, last)
  }

  /** Each row's count is at least the next row's. */
  predicate StepsDown(table: seq<GenreCount>) {
    forall i :: 0 < i < |table| ==> table[i - 1].count >= table[i].count
  }

  lemma {:induction false} StepsDownIsNonIncreasing(table: seq<GenreCount>)
    requires StepsDown(table)
    ensures NonIncreasing(table)
    decreases |table|
  {
    if table != [] {
      StepsDownIsNonIncreasing(table[1..]);
      forall j | 0 < j < |table|
        ensures table[0].count >= table[j].count
      {
        if j > 1 {
          assert table[1..][0].count >= table[1..][j - 1].count;
        }
      }
      forall i, j | 0 <= i < j < |table|
        ensures table[i].count >= table[j].count
      {
        if i > 0 {
          assert table[1..][i - 1].count >= table[1..][j - 1].count;
        }
      }
    }
  }

  /** Inserts `e` in front of the first row whose count is not larger, so a
      row inserted later stays before the rows of equal count already there. */
  function Insert(e: GenreCount, s: seq<GenreCount>): (r: seq<GenreCount>)
    ensures |r| == |s| + 1
    ensures r[0] == e || (s != [] && r[0] == s[0])
    decreases |s|
  {
    if s == [] || e.count >= s[0].count then [e] + s
    else [s[0]] + Insert(e, s[1..])
  }

  /** Inserting into rows ordered by count keeps them ordered. */
  lemma {:induction false} InsertStepsDown(e: GenreCount, s: seq<GenreCount>)
    requires StepsDown(s)
    ensures StepsDown(Insert(e, s))
    decreases |s|
  {
    if s != [] && e.count < s[0].count {
      var rest := Insert(e, s[1..]);
      InsertStepsDown(e, s[1..]);
      assert Insert(e, s)[1..] == rest;
    }
  }

  /** Insertion adds `e` and loses nothing. */
  lemma {:induction false} InsertPermutes(e: GenreCount, s: seq<GenreCount>)
    ensures multiset(Insert(e, s)) == multiset(s) + multiset{e}
    decreases |s|
  {
    if s == [] || e.count >= s[0].count {
      assert Insert(e, s) == [e] + s;
    } else {
      InsertPermutes(e, s[1..]);
      assert Insert(e, s) == [s[0]] + Insert(e, s[1..]);
      assert s == [s[0]] + s[1..];
    }
  }

  /** Insertion adds `e`'s count to the total. */
  lemma {:induction false} InsertSum(e: GenreCount, s: seq<GenreCount>)
    ensures SumCounts(Insert(e, s)) == SumCounts(s) + e.count
    decreases |s|
  {
    if s == [] || e.count >= s[0].count {
      assert Insert(e, s)[1..] == s;
    } else {
      InsertSum(e, s[1..]);
      assert Insert(e, s)[1..] == Insert(e, s[1..]);
    }
  }

  /** Insertion sort by non-increasing count; rows of equal count keep their order. */
  function SortByCount(s: seq<GenreCount>): (r: seq<GenreCount>)
    ensures StepsDown(r)
    ensures multiset(r) == multiset(s)
    ensures SumCounts(r) == SumCounts(s)
    decreases |s|
  {
    if s == [] then []
    else
      var rest := SortByCount(s[1..]);
      assert s == [s[0]] + s[1..];
      InsertStepsDown(s[0], rest);
      InsertPermutes(s[0], rest);
      InsertSum(s[0], rest);
      Insert(s[0], rest)
  }

  /** A permutation of a correct count table is still a correct count table. */
  lemma CountsTokensPermuted(tokens: seq<string>, s: seq<GenreCount>, r: seq<GenreCount>)
    requires CountsTokens(tokens, s)
    requires multiset(r) == multiset(s)
    ensures CountsTokens(tokens, r)
  {
    forall i | 0 <= i < |r|
      ensures r[i] in s
    {
      assert multiset(r)[r[i]] > 0;
    }
    forall i | 0 <= i < |s|
      ensures s[i] in r
    {
      assert multiset(s)[s[i]] > 0;
    }
    forall t
      ensures t in GenreColumn(r) <==> t in GenreColumn(s)
    {
      if t in GenreColumn(r) {
        var i :| 0 <= i < |r| && GenreColumn(r)[i] == t;
        var j :| 0 <= j < |s| && s[j] == r[i];
        assert GenreColumn(s)[j] == t;
      }
      if t in GenreColumn(s) {
        var i :| 0 <= i < |s| && GenreColumn(s)[i] == t;
        var j :| 0 <= j < |r| && r[j] == s[i];
        assert GenreColumn(r)[j] == t;
      }
    }
    forall i, j | 0 <= i < j < |r|
      ensures r[i].genre != r[j].genre
    {
      var a :| 0 <= a < |s| && s[a] == r[i];
      var b :| 0 <= b < |s| && s[b] == r[j];
      if a == b {
        TwoPositionsTwice(r, i, j);
        DistinctRowsOnce(s, r[i]);
      }
    }
  }

  /** A row that sits at two positions occurs twice. */
  lemma TwoPositionsTwice(r: seq<GenreCount>, i: int, j: int)
    requires 0 <= i < j < |r| && r[i] == r[j]
    ensures multiset(r)[r[i]] >= 2
  {
    assert r == r[..i] + [r[i]] + r[i + 1..j] + [r[j]] + r[j + 1..];
  }

  /** A table with distinct genres holds each row once. */
  lemma {:induction false} DistinctRowsOnce(s: seq<GenreCount>, x: GenreCount)
    requires DistinctGenres(s)
    ensures multiset(s)[x] <= 1
    decreases |s|
  {
    if s != [] {
      assert s == [s[0]] + s[1..];
      DistinctRowsOnce(s[1..], x);
      if s[0] == x {
        assert x !in s[1..];
      }
    }
  }

  /** Lines 44-47: `value_counts()` with the index reset and the columns renamed. */
  function ValueCounts(tokens: seq<string>): (table: seq<GenreCount>)
    ensures IsFrequencyTable(tokens, table)
  {
    var tally := Tally(tokens);
    var table := SortByCount(tally);
    CountsTokensPermuted(tokens, tally, table);
    StepsDownIsNonIncreasing(table);
    assert forall i :: 0 <= i < |table| ==> table[i].count >= 1 by {
      forall i | 0 <= i < |table|
        ensures table[i].count >= 1
      {
        assert GenreColumn(table)[i] == table[i].genre;
        assert table[i].genre in tokens;
      }
    }
    table
  }

  /** The description pins the table down up to the order of rows with equal
      counts: two tables that both meet it hold the same rows. */
  lemma FrequencyTablesAgree(tokens: seq<string>, a: seq<GenreCount>, b: seq<GenreCount>)
    requires IsFrequencyTable(tokens, a) && IsFrequencyTable(tokens, b)
    ensures multiset(a) == multiset(b)
    ensures |a| == |b|
  {
    forall x
      ensures multiset(a)[x] == multiset(b)[x]
    {
      DistinctRowsOnce(a, x);
      DistinctRowsOnce(b, x);
      if x in a {
        RowOfOneIsRowOfOther(tokens, a, b, x);
      }
      if x in b {
        RowOfOneIsRowOfOther(tokens, b, a, x);
      }
    }
    assert multiset(a) == multiset(b);
    assert |multiset(a)| == |multiset(b)|;
  }

  lemma RowOfOneIsRowOfOther(tokens: seq<string>, a: seq<GenreCount>, b: seq<GenreCount>, x: GenreCount)
    requires CountsTokens(tokens, a) && CountsTokens(tokens, b)
    requires x in a
    ensures x in b
  {
    var i :| 0 <= i < |a| && a[i] == x;
    assert GenreColumn(a)[i] == x.genre;
    assert x.genre in tokens;
    assert x.genre in GenreColumn(b);
    var j :| 0 <= j < |b| && GenreColumn(b)[j] == x.genre;
    assert b[j] == x;
  }

  /** Two `Comedy` tokens and one `Romance` token give the chart `Comedy` 2,
      `Romance` 1, in that order. */
  lemma ComedyRomanceExample()
    ensures ValueCounts(["Romance", "Comedy", "Comedy"]) == [GenreCount("Comedy", 2), GenreCount("Romance", 1)]
  {
    ExpectedIsFrequencyTable();
    TwoRowTable(["Romance", "Comedy", "Comedy"], ValueCounts(["Romance", "Comedy", "Comedy"]),
                GenreCount("Comedy", 2), GenreCount("Romance", 1));
  }

  /** With two genres of different counts there is only one frequency table. */
  lemma TwoRowTable(tokens: seq<string>, table: seq<GenreCount>, x: GenreCount, y: GenreCount)
    requires IsFrequencyTable(tokens, table) && IsFrequencyTable(tokens, [x, y])
    requires x.count > y.count
    ensures table == [x, y]
  {
    var expected := [x, y];
    FrequencyTablesAgree(tokens, table, expected);
    assert table[0] in multiset(expected) && table[1] in multiset(expected);
    assert table[0] != table[1] by {
      assert table[0].genre != table[1].genre;
    }
    assert table[0].count >= table[1].count;
  }

  lemma ExpectedIsFrequencyTable()
    ensures IsFrequencyTable(["Romance", "Comedy", "Comedy"], [GenreCount("Comedy", 2), GenreCount("Romance", 1)])
  {
    var tokens := ["Romance", "Comedy", "Comedy"];
    var expected := [GenreCount("Comedy", 2), GenreCount("Romance", 1)];
    assert multiset(tokens) == multiset{"Romance", "Comedy", "Comedy"};
    assert GenreColumn(expected) == ["Comedy", "Romance"];
    assert SumCounts(expected) == 3 by {
      assert expected[1..][1..] == [];
    }
  }
}
