/** Greedy token selection: options are eliminated column by column, which must pick
    the first of the lexicographically greatest options. */
module Choices {
  import opened Prelude

  function Sum(row: seq<real>): real {
    if row == [] then 0.0 else Sum(row[..|row| - 1]) + row[|row| - 1]
  }

  function Mean(row: seq<real>): real
    requires row != []
  {
    Sum(row) / |row| as real
  }

  /** A row extended with its own average. */
  function Padded(row: seq<real>, n: nat): (r: seq<real>)
    requires row != [] && |row| <= n
    ensures |r| == n && r[..|row|] == row
    ensures forall j :: |row| <= j < n ==> r[j] == Mean(row)
  {
    row + seq(n - |row|, _ => Mean(row))
  }

  /** The numbers of a row are added up, in whatever parts. */
  lemma {:induction false} SumOfTwo(a: seq<real>, b: seq<real>)
    ensures Sum(a + b) == Sum(a) + Sum(b)
    ensures |b| == 1 ==> Sum(b) == b[0]
  {
    if b == [] {
      assert a + b == a;
    } else {
      var init := b[..|b| - 1];
      assert (a + b)[..|a + b| - 1] == a + init;
      SumOfTwo(a, init);
    }
  }

  /** As many times the mean as there are numbers make up their sum. */
  lemma MeanIsBalanced(row: seq<real>)
    requires row != []
    ensures Mean(row) * |row| as real == Sum(row)
  {
    DivideAndMultiply(Sum(row), |row| as real);
  }

  lemma {:induction false} SumOfPadding(row: seq<real>, padding: seq<real>, c: real)
    requires forall j :: 0 <= j < |padding| ==> padding[j] == c
    ensures Sum(row + padding) == Sum(row) + |padding| as real * c
  {
    if padding == [] {
      assert row + padding == row;
    } else {
      var init := padding[..|padding| - 1];
      assert (row + padding)[..|row + padding| - 1] == row + init;
      SumOfPadding(row, init, c);
      assert |padding| as real == |init| as real + 1.0;
    }
  }

  /** Padding leaves the mean of a row unchanged. */
  lemma PaddingKeepsMean(row: seq<real>, n: nat)
    requires row != [] && |row| <= n
    ensures Mean(Padded(row, n)) == Mean(row)
  {
    var m := Mean(row);
    SumOfPadding(row, seq(n - |row|, _ => m), m);
    assert (n - |row|) as real == n as real - |row| as real;
    AverageKeepsQuotient(Sum(row), |row| as real, n as real);
  }

  lemma AverageKeepsQuotient(x: real, a: real, d: real)
    requires 0.0 < a <= d
    ensures (x + (d - a) * (x / a)) / d == x / a
  {
    var m := x / a;
    DivideAndMultiply(x, a);
    DivideAndMultiply(m, d);
    assert (d - a) * m == m * d - m * a;
  }

  lemma DivideAndMultiply(x: real, d: real)
    requires d > 0.0
    ensures x / d * d == x && x * d / d == x
  {
  }

  // ----- the lexicographic order -----

  /** The rows differ among the first n columns, and a is smaller where they differ first. */
  ghost predicate Below(a: seq<real>, b: seq<real>, n: nat)
    requires n <= |a| && n <= |b|
  {
    exists p :: 0 <= p < n && a[p] < b[p] && a[..p] == b[..p]
  }

  lemma BelowOneMore(a: seq<real>, b: seq<real>, n: nat)
    requires n < |a| && n < |b|
    ensures Below(a, b, n + 1) <==> Below(a, b, n) || (a[..n] == b[..n] && a[n] < b[n])
    ensures a[..n + 1] == b[..n + 1] <==> a[..n] == b[..n] && a[n] == b[n]
  {
    assert a[..n + 1] == a[..n] + [a[n]] && b[..n + 1] == b[..n] + [b[n]];
  }

  /** The order is total: of two rows one is below the other, or they agree; never two of these. */
  lemma {:induction false} Trichotomy(a: seq<real>, b: seq<real>, n: nat)
    requires n <= |a| && n <= |b|
    ensures Below(a, b, n) ==> !Below(b, a, n) && a[..n] != b[..n]
    ensures Below(b, a, n) ==> a[..n] != b[..n]
    ensures Below(a, b, n) || Below(b, a, n) || a[..n] == b[..n]
  {
    if n > 0 {
      Trichotomy(a, b, n - 1);
      BelowOneMore(a, b, n - 1);
      BelowOneMore(b, a, n - 1);
    }
  }

  lemma {:induction false} AgreeingRows(a: seq<real>, b: seq<real>, c: seq<real>, n: nat)
    requires n <= |a| && n <= |b| && n <= |c| && a[..n] == b[..n]
    ensures Below(a, c, n) <==> Below(b, c, n)
  {
    if n > 0 {
      assert a[..n - 1] == a[..n][..n - 1] == b[..n - 1] && a[n - 1] == a[..n][n - 1] == b[n - 1];
      AgreeingRows(a, b, c, n - 1);
      BelowOneMore(a, c, n - 1);
      BelowOneMore(b, c, n - 1);
    }
  }

  ghost predicate Rectangular(rows: seq<seq<real>>, n: nat) {
    forall i :: 0 <= i < |rows| ==> |rows[i]| == n
  }

  /** No row is greater in the first j columns. */
  ghost predicate Greatest(rows: seq<seq<real>>, i: nat, j: nat, n: nat)
    requires Rectangular(rows, n) && i < |rows| && j <= n
  {
    forall k :: 0 <= k < |rows| ==> !Below(rows[i], rows[k], j)
  }

  lemma GreatestAreEqual(rows: seq<seq<real>>, i: nat, k: nat, j: nat, n: nat)
    requires Rectangular(rows, n) && i < |rows| && k < |rows| && j <= n
    requires Greatest(rows, i, j, n)
    ensures Greatest(rows, k, j, n) <==> rows[i][..j] == rows[k][..j]
    ensures Greatest(rows, k, j, n) || Below(rows[k], rows[i], j)
  {
    Trichotomy(rows[i], rows[k], j);
    if rows[i][..j] == rows[k][..j] {
      forall m | 0 <= m < |rows|
        ensures !Below(rows[k], rows[m], j)
      {
        AgreeingRows(rows[i], rows[k], rows[m], j);
      }
    }
  }

  /** One more column keeps those of the greatest that have the greatest entry in it. */
  lemma GreatestOneMore(rows: seq<seq<real>>, best: nat, i: nat, j: nat, n: nat)
    requires Rectangular(rows, n) && best < |rows| && i < |rows| && j < n
    requires Greatest(rows, best, j, n)
    requires forall k :: 0 <= k < |rows| && Greatest(rows, k, j, n) ==> rows[k][j] <= rows[best][j]
    ensures Greatest(rows, i, j + 1, n) <==> Greatest(rows, i, j, n) && rows[i][j] == rows[best][j]
  {
    forall k | 0 <= k < |rows|
      ensures Below(rows[i], rows[k], j + 1) <==>
              Below(rows[i], rows[k], j) || (rows[i][..j] == rows[k][..j] && rows[i][j] < rows[k][j])
      ensures Greatest(rows, k, j, n) <==> rows[best][..j] == rows[k][..j]
    {
      BelowOneMore(rows[i], rows[k], j);
      GreatestAreEqual(rows, best, k, j, n);
    }
  }

  /** The indices of the greatest rows, in increasing order. */
  ghost predicate Remain(rows: seq<seq<real>>, remaining: seq<nat>, j: nat, n: nat)
    requires Rectangular(rows, n) && j <= n
  {
    && remaining != []
    && (forall a, c :: 0 <= a < c < |remaining| ==> remaining[a] < remaining[c])
    && (forall a :: 0 <= a < |remaining| ==> remaining[a] < |rows|)
    && (forall i: nat :: i < |rows| ==> (i in remaining <==> Greatest(rows, i, j, n)))
  }

  lemma {:induction false} StaysBelow(a: seq<real>, b: seq<real>, j: nat, n: nat)
    requires j <= n <= |a| && n <= |b| && Below(a, b, j)
    ensures Below(a, b, n)
  {
    if j < n {
      StaysBelow(a, b, j, n - 1);
      BelowOneMore(a, b, n - 1);
    }
  }

  /** A single greatest row stays the greatest, whatever the later columns hold. */
  lemma SingleStaysGreatest(rows: seq<seq<real>>, i: nat, j: nat, n: nat)
    requires Rectangular(rows, n) && j <= n && Remain(rows, [i], j, n)
    ensures Remain(rows, [i], n, n)
  {
    assert i in [i];
    forall k: nat | k < |rows|
      ensures !Below(rows[i], rows[k], n)
      ensures k != i ==> Below(rows[k], rows[i], n)
    {
      Trichotomy(rows[i], rows[k], n);
      if k != i {
        assert k !in [i];
        GreatestAreEqual(rows, i, k, j, n);
        StaysBelow(rows[k], rows[i], j, n);
      }
    }
  }

  // ----- the selection -----

  method MaxOf(rows: seq<seq<real>>, remaining: seq<nat>, j: nat) returns (best: nat)
    requires remaining != [] && forall a :: 0 <= a < |remaining| ==> remaining[a] < |rows| && j < |rows[remaining[a]]|
    ensures best in remaining && forall i :: i in remaining ==> rows[i][j] <= rows[best][j]
  {
    best := remaining[0];
    for a := 1 to |remaining|
      invariant best in remaining
      invariant forall c :: 0 <= c < a ==> rows[remaining[c]][j] <= rows[best][j]
    {
      if rows[best][j] < rows[remaining[a]][j] {
        best := remaining[a];
      }
    }
  }

  /** The remaining options with the given entry in column j, in the same order. */
  method KeepEqual(rows: seq<seq<real>>, remaining: seq<nat>, j: nat, max: real) returns (kept: seq<nat>)
    requires forall a :: 0 <= a < |remaining| ==> remaining[a] < |rows| && j < |rows[remaining[a]]|
    requires forall a, c :: 0 <= a < c < |remaining| ==> remaining[a] < remaining[c]
    ensures forall i :: i in remaining ==> (i in kept <==> rows[i][j] == max)
    ensures forall a :: 0 <= a < |kept| ==> kept[a] in remaining
    ensures forall a, c :: 0 <= a < c < |kept| ==> kept[a] < kept[c]
  {
    kept := [];
    for a := 0 to |remaining|
      invariant forall i :: i in remaining[..a] ==> (i in kept <==> rows[i][j] == max)
      invariant forall c :: 0 <= c < |kept| ==> kept[c] in remaining[..a]
      invariant forall c, d :: 0 <= c < d < |kept| ==> kept[c] < kept[d]
    {
      assert remaining[..a + 1] == remaining[..a] + [remaining[a]];
      if rows[remaining[a]][j] == max {
        kept := kept + [remaining[a]];
      }
    }
    assert remaining[..|remaining|] == remaining;
  }

  lemma AllRemain(rows: seq<seq<real>>, remaining: seq<nat>, n: nat)
    requires rows != [] && Rectangular(rows, n)
    requires |remaining| == |rows| && forall i :: 0 <= i < |rows| ==> remaining[i] == i
    ensures Remain(rows, remaining, 0, n)
  {
    forall i: nat | i < |rows|
      ensures i in remaining && Greatest(rows, i, 0, n)
    {
      assert remaining[i] == i;
    }
  }

  /** Greedy elimination, with its early exit: what remains are exactly the greatest rows. */
  method Eliminate(rows: seq<seq<real>>, maxTokens: nat) returns (remaining: seq<nat>)
    requires rows != [] && Rectangular(rows, maxTokens)
    ensures remaining != [] && remaining[0] < |rows| && Greatest(rows, remaining[0], maxTokens, maxTokens)
    ensures forall i :: 0 <= i < remaining[0] ==> !Greatest(rows, i, maxTokens, maxTokens)
  {
    remaining := seq(|rows|, i => i);
    AllRemain(rows, remaining, maxTokens);
    var j := 0;
    while j < maxTokens
      invariant j <= maxTokens && Remain(rows, remaining, j, maxTokens)
    {
      var best := MaxOf(rows, remaining, j);
      forall i: nat | i < |rows|
        ensures Greatest(rows, i, j + 1, maxTokens) <==> Greatest(rows, i, j, maxTokens) && rows[i][j] == rows[best][j]
      {
        GreatestOneMore(rows, best, i, j, maxTokens);
      }
      remaining := KeepEqual(rows, remaining, j, rows[best][j]);
      assert best in remaining;
      j := j + 1;
      if |remaining| == 1 {
        assert remaining == [remaining[0]];
        SingleStaysGreatest(rows, remaining[0], j, maxTokens);
        break;
      }
    }
    assert forall i :: 0 <= i < remaining[0] ==> i !in remaining;
  }

  /** A row of the matrix. An option without tokens has no average: its row is filled with what is not a
      number, unless the matrix has no columns. */
  datatype Row = Numbers(values: seq<real>) | NotANumber

  function RowOf(option: seq<real>, maxTokens: nat): Row
    requires |option| <= maxTokens
  {
    if option != [] then Numbers(Padded(option, maxTokens))
    else if maxTokens == 0 then Numbers([])
    else NotANumber
  }

  /** The logprobs of the options, each padded with its average to the length of the longest. */
  method BuildLogprobMatrix(options: seq<seq<real>>, maxTokens: nat) returns (rows: seq<Row>)
    requires forall i :: 0 <= i < |options| ==> |options[i]| <= maxTokens
    ensures |rows| == |options|
    ensures forall i :: 0 <= i < |options| ==> rows[i] == RowOf(options[i], maxTokens)
  {
    rows := [];
    for i := 0 to |options|
      invariant |rows| == i
      invariant forall k :: 0 <= k < i ==> rows[k] == RowOf(options[k], maxTokens)
    {
      if options[i] == [] {
        rows := rows + [if maxTokens == 0 then Numbers([]) else NotANumber];
      } else {
        var average := MeanOf(options[i]);
        rows := rows + [Numbers(options[i] + seq(maxTokens - |options[i]|, _ => average))];
      }
    }
  }

  predicate Columns(rows: seq<Row>, n: nat) {
    forall i :: 0 <= i < |rows| ==> if rows[i].Numbers? then |rows[i].values| == n else n > 0
  }

  function ValuesOf(rows: seq<Row>): (r: seq<seq<real>>)
    requires forall i :: 0 <= i < |rows| ==> rows[i].Numbers?
    ensures |r| == |rows| && forall i :: 0 <= i < |r| ==> r[i] == rows[i].values
  {
    seq(|rows|, i requires 0 <= i < |rows| => rows[i].values)
  }

  /** The maximum of a column with an entry that is not a number is not a number, and nothing equals it:
      then nothing remains, and the caller fails. */
  method GreedySelection(rows: seq<Row>, maxTokens: nat) returns (remaining: seq<nat>)
    requires rows != [] && Columns(rows, maxTokens)
    ensures remaining == [] <==> NotANumber in rows
    ensures NotANumber !in rows ==>
              var values := ValuesOf(rows);
              && remaining[0] < |rows| && Rectangular(values, maxTokens)
              && Greatest(values, remaining[0], maxTokens, maxTokens)
              && forall i :: 0 <= i < remaining[0] ==> !Greatest(values, i, maxTokens, maxTokens)
  {
    if NotANumber in rows {
      return [];
    }
    remaining := Eliminate(ValuesOf(rows), maxTokens);
  }

  method MeanOf(row: seq<real>) returns (m: real)
    requires row != []
    ensures m == Mean(row)
  {
    var total := 0.0;
    for i := 0 to |row|
      invariant total == Sum(row[..i])
    {
      assert row[..i + 1][..i] == row[..i];
      total := total + row[i];
    }
    assert row[..|row|] == row;
    m := total / |row| as real;
  }

  function Longest(options: seq<seq<real>>): (n: nat)
    ensures forall i :: 0 <= i < |options| ==> |options[i]| <= n
    ensures options != [] ==> exists i :: 0 <= i < |options| && |options[i]| == n
  {
    if options == [] then 0
    else
      var init, last := options[..|options| - 1], options[|options| - 1];
      assert forall i :: 0 <= i < |init| ==> init[i] == options[i];
      if Longest(init) < |last| then
        assert |options[|options| - 1]| == |last|; |last|
      else Longest(init)
  }

  /** The chosen option: the first among those whose padded logprobs are lexicographically greatest.
      Choosing fails exactly when some option has no tokens and another has. */
  method MaxTokens(options: seq<seq<real>>) returns (maxTokens: nat)
    ensures maxTokens == Longest(options)
  {
    maxTokens := 0;
    for i := 0 to |options|
      invariant maxTokens == Longest(options[..i])
    {
      assert options[..i + 1][..i] == options[..i];
      if maxTokens < |options[i]| {
        maxTokens := |options[i]|;
      }
    }
    assert options[..|options|] == options;
  }

  method Choose(options: seq<seq<real>>) returns (choice: Option<nat>)
    requires options != []
    ensures choice.None? <==> [] in options && exists i :: 0 <= i < |options| && options[i] != []
    ensures choice.Some? && [] !in options ==> IsFirstGreatest(options, choice.value, Longest(options))
    ensures choice.Some? && [] in options ==> choice.value == 0
  {
    var maxTokens := MaxTokens(options);
    var rows := BuildLogprobMatrix(options, maxTokens);
    var remaining := GreedySelection(rows, maxTokens);
    BlanksIff(options, maxTokens, rows);
    if remaining == [] {
      return None;
    }
    choice := Some(remaining[0]);
    if [] in options {
      NothingIsGreater(ValuesOf(rows), remaining[0]);
    } else {
      assert ValuesOf(rows) == PaddedRows(options, maxTokens);
    }
  }

  lemma BlanksIff(options: seq<seq<real>>, maxTokens: nat, rows: seq<Row>)
    requires options != [] && maxTokens == Longest(options) && |rows| == |options|
    requires forall i :: 0 <= i < |options| ==> rows[i] == RowOf(options[i], maxTokens)
    ensures NotANumber in rows <==> [] in options && exists i :: 0 <= i < |options| && options[i] != []
    ensures [] in options && NotANumber !in rows ==> maxTokens == 0
  {
    if [] in options && maxTokens > 0 {
      var i :| 0 <= i < |options| && options[i] == [];
      assert rows[i] == NotANumber;
    }
  }

  /** In a matrix without columns every row is greatest. */
  lemma NothingIsGreater(rows: seq<seq<real>>, first: nat)
    requires Rectangular(rows, 0) && first < |rows|
    requires forall i :: 0 <= i < first ==> !Greatest(rows, i, 0, 0)
    ensures first == 0
  {
    assert rows != [] ==> Greatest(rows, 0, 0, 0);
  }

  function PaddedRows(options: seq<seq<real>>, n: nat): (rows: seq<seq<real>>)
    requires forall i :: 0 <= i < |options| ==> 0 < |options[i]| <= n
    ensures |rows| == |options| && forall i :: 0 <= i < |rows| ==> rows[i] == Padded(options[i], n)
  {
    seq(|options|, i requires 0 <= i < |options| => Padded(options[i], n))
  }

  ghost predicate IsFirstGreatest(options: seq<seq<real>>, choice: nat, n: nat)
    requires forall i :: 0 <= i < |options| ==> |options[i]| <= n
  {
    && (forall i :: 0 <= i < |options| ==> options[i] != [])
    && choice < |options|
    && Greatest(PaddedRows(options, n), choice, n, n)
    && forall i :: 0 <= i < choice ==> !Greatest(PaddedRows(options, n), i, n, n)
  }
}
