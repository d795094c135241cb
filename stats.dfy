/** The stat projections both `/analyze` handlers hand to the chart library:
    one stat vector per row (radar and stacked bars), the per-stat mean (mean
    radar) and the per-stat values (histogram). */
module Stats {
  import opened Seqs
  import opened Table

  /** `row[categories].values`: the row's stats in the order of `categories`,
      whatever the order of the CSV's columns. */
  function StatVector(row: Row, categories: seq<string>): (v: seq<int>)
    requires RowHasStats(row, categories)
    ensures |v| == |categories|
    ensures forall i :: 0 <= i < |categories| ==> v[i] == row.stats[categories[i]]
  {
    seq(|categories|, i requires 0 <= i < |categories| => row.stats[categories[i]])
  }

  /** One radar or stacked-bar trace: the row's name and its stat vector. */
  datatype Trace = Trace(name: string, values: seq<int>)

  /** One trace per filtered row, in filtered order. */
  function StatTraces(rows: seq<Row>, categories: seq<string>): (t: seq<Trace>)
    requires HasStats(rows, categories)
    ensures |t| == |rows|
    ensures forall k :: 0 <= k < |rows| ==> t[k].name == rows[k].name && |t[k].values| == |categories|
  {
    seq(|rows|, k requires 0 <= k < |rows| => Trace(rows[k].name, StatVector(rows[k], categories)))
  }

  /** `filtered_data[stat]`: one stat over the rows, in row order. */
  function Column(rows: seq<Row>, stat: string): (c: seq<int>)
    requires forall k :: 0 <= k < |rows| ==> stat in rows[k].stats
    ensures |c| == |rows|
    ensures forall k :: 0 <= k < |rows| ==> c[k] == rows[k].stats[stat]
  {
    seq(|rows|, k requires 0 <= k < |rows| => rows[k].stats[stat])
  }

  /** Entry `i` of the traces is column `categories[i]`: the radar, the stacked
      bars, the mean radar and the histogram read the same numbers. */
  lemma TracesAreColumns(rows: seq<Row>, categories: seq<string>, i: int)
    requires HasStats(rows, categories) && 0 <= i < |categories|
    ensures |Column(rows, categories[i])| == |rows|
    ensures forall k :: 0 <= k < |rows| ==> StatTraces(rows, categories)[k].values[i] == Column(rows, categories[i])[k]
  {
  }

  function Sum(xs: seq<int>): (s: int)
  {
    if xs == [] then 0 else xs[0] + Sum(xs[1..])
  }

  /** A pandas mean: a number, or NaN when there is nothing to average. */
  datatype Average = Value(value: real) | NaN

  /** `Series.mean()`: the sum divided by the number of values (the number of
      filtered rows, which the selection check does not fix at six). */
  function Mean(xs: seq<int>): (m: Average)
    ensures m.NaN? <==> xs == []
    ensures m.Value? ==> m.value * |xs| as real == Sum(xs) as real
  {
    if xs == [] then NaN else Value(Sum(xs) as real / |xs| as real)
  }

  function Min(xs: seq<int>): (m: int)
    requires xs != []
    ensures m in xs && forall i :: 0 <= i < |xs| ==> m <= xs[i]
  {
    if |xs| == 1 then xs[0]
    else var rest := Min(xs[1..]); if xs[0] <= rest then xs[0] else rest
  }

  function Max(xs: seq<int>): (m: int)
    requires xs != []
    ensures m in xs && forall i :: 0 <= i < |xs| ==> xs[i] <= m
  {
    if |xs| == 1 then xs[0]
    else var rest := Max(xs[1..]); if xs[0] >= rest then xs[0] else rest
  }

  /** Values between `lo` and `hi` sum to between `n * lo` and `n * hi`. */
  lemma {:induction false} SumBounds(xs: seq<int>, lo: real, hi: real)
    requires forall i :: 0 <= i < |xs| ==> lo <= xs[i] as real <= hi
    ensures (|xs| as real) * lo <= Sum(xs) as real <= (|xs| as real) * hi
  {
    if xs != [] {
      var r := |xs[1..]| as real;
      SumBounds(xs[1..], lo, hi);
      assert (|xs| as real) * lo == r * lo + lo;
      assert (|xs| as real) * hi == r * hi + hi;
    }
  }

  /** The mean of a non-empty column lies between its minimum and maximum. */
  lemma MeanWithinRange(xs: seq<int>)
    requires xs != []
    ensures Mean(xs).Value?
    ensures Min(xs) as real <= Mean(xs).value <= Max(xs) as real
  {
    var lo, hi := Min(xs) as real, Max(xs) as real;
    SumBounds(xs, lo, hi);
    QuotientBounds(Sum(xs) as real, |xs| as real, lo, hi);
  }

  /** `lo <= s / n <= hi` whenever `n * lo <= s <= n * hi` and `n > 0`. */
  lemma QuotientBounds(s: real, n: real, lo: real, hi: real)
    requires n > 0.0 && n * lo <= s <= n * hi
    ensures lo <= s / n <= hi
  {
    assert s / n - lo == (s - n * lo) / n;
    assert hi - s / n == (n * hi - s) / n;
  }

  lemma {:induction false} SumAppend(xs: seq<int>, ys: seq<int>)
    ensures Sum(xs + ys) == Sum(xs) + Sum(ys)
  {
    if xs == [] {
      assert xs + ys == ys;
    } else {
      assert (xs + ys)[1..] == xs[1..] + ys;
      SumAppend(xs[1..], ys);
    }
  }

  /** The sum depends only on the values and how often each occurs. */
  lemma {:induction false} SumOfPermutation(xs: seq<int>, ys: seq<int>)
    requires multiset(xs) == multiset(ys)
    ensures Sum(xs) == Sum(ys)
    decreases |xs|
  {
    if xs != [] {
      assert xs[0] in multiset(ys);
      var k :| 0 <= k < |ys| && ys[k] == xs[0];
      var rest := ys[..k] + ys[k + 1..];
      assert ys == ys[..k] + [ys[k]] + ys[k + 1..];
      SumAppend(ys[..k] + [ys[k]], ys[k + 1..]);
      SumAppend(ys[..k], [ys[k]]);
      SumAppend(ys[..k], ys[k + 1..]);
      assert xs == [xs[0]] + xs[1..];
      assert multiset(ys) == multiset(ys[..k]) + multiset{ys[k]} + multiset(ys[k + 1..]);
      assert multiset(rest) == multiset(ys[..k]) + multiset(ys[k + 1..]);
      assert multiset(xs) == multiset{xs[0]} + multiset(xs[1..]);
      assert multiset(xs[1..]) == multiset(xs) - multiset{xs[0]};
      assert multiset(rest) == multiset(ys) - multiset{ys[k]};
      SumOfPermutation(xs[1..], rest);
    }
  }

  /** `filtered_data[stat]` as the histogram bins it: a multiset of values. */
  function Distribution(rows: seq<Row>, stat: string): (d: multiset<int>)
    requires forall k :: 0 <= k < |rows| ==> stat in rows[k].stats
    ensures |d| == |rows|
  {
    multiset(Column(rows, stat))
  }

  /** The mean is a function of the histogram's multiset: two row sequences
      with the same distribution of a stat, in any order, have the same mean. */
  lemma MeanOfDistribution(rows: seq<Row>, others: seq<Row>, stat: string)
    requires forall k :: 0 <= k < |rows| ==> stat in rows[k].stats
    requires forall k :: 0 <= k < |others| ==> stat in others[k].stats
    requires Distribution(rows, stat) == Distribution(others, stat)
    ensures Mean(Column(rows, stat)) == Mean(Column(others, stat))
  {
    SumOfPermutation(Column(rows, stat), Column(others, stat));
  }

  /** `filtered_data[categories].mean()`: one average per category. */
  function MeanRow(rows: seq<Row>, categories: seq<string>): (m: seq<Average>)
    requires HasStats(rows, categories)
    ensures |m| == |categories|
    ensures forall i :: 0 <= i < |categories| ==> (m[i].NaN? <==> rows == [])
  {
    seq(|categories|, i requires 0 <= i < |categories| => Mean(Column(rows, categories[i])))
  }

  /** Every entry of the mean row is NaN when no row was selected; otherwise it
      is the column's sum over the row count and lies between the column's
      minimum and maximum. */
  lemma MeanRowEntries(rows: seq<Row>, categories: seq<string>, i: int)
    requires HasStats(rows, categories) && 0 <= i < |categories|
    ensures rows == [] ==> MeanRow(rows, categories)[i].NaN?
    ensures rows != [] ==>
      var col := Column(rows, categories[i]);
      && MeanRow(rows, categories)[i] == Value(Sum(col) as real / |rows| as real)
      && Min(col) as real <= MeanRow(rows, categories)[i].value <= Max(col) as real
  {
    if rows != [] {
      MeanWithinRange(Column(rows, categories[i]));
    }
  }

  /** Six rows whose HP are 10, 20, ..., 60 have mean HP 35. */
  lemma MeanOfSixExample()
    ensures Mean([10, 20, 30, 40, 50, 60]) == Value(35.0)
  {
    assert Sum([10, 20, 30, 40, 50, 60]) == 210;
  }
}
