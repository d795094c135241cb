/** The dataset loaded from `All_Pokemon.csv` once at start-up, the
    `against_columns` discovered from its header, and the `isin` filter that
    turns a selection into the rows every chart is built from. */
module Table {
  import opened Seqs

  /** One CSV row: its `Name`, its integer stat columns and its real-valued
      type-matchup multipliers, each keyed by its column header. Looking a row
      up by header does not depend on where that header sits in the file. */
  datatype Row = Row(name: string, stats: map<string, int>, against: map<string, real>)

  /** The loaded CSV: the header in file order and the rows in file order. */
  datatype Dataset = Dataset(columns: seq<string>, rows: seq<Row>)

  /** `stats_columns` of `app.py`: the six stat headers. Every handler reads
      these six stats, each in an order of its own, so a dataset must carry
      them all. */
  const StatColumns: seq<string> := ["HP", "Att", "Def", "Spa", "Spd", "Spe"]

  /** The header prefix that marks a type-matchup column. */
  const AgainstPrefix: string := "Against"

  /** The text deleted from a matchup header to make its axis label. */
  const LabelPrefix: string := "Against "

  predicate StartsWith(s: string, prefix: string)
  {
    |prefix| <= |s| && s[..|prefix|] == prefix
  }

  /** `col.startswith('Against')`. */
  predicate IsAgainstColumn(col: string)
  {
    StartsWith(col, AgainstPrefix)
  }

  /** `against_columns`: the headers starting with "Against", in header order. */
  function AgainstColumns(columns: seq<string>): (r: seq<string>)
    ensures forall c :: c in r <==> c in columns && IsAgainstColumn(c)
  {
    Keep(columns, IsAgainstColumn)
  }

  /** The matchup columns are the matching headers, each as often as in the
      header, in the header's order; discovering them again changes nothing. */
  lemma AgainstColumnsInHeaderOrder(columns: seq<string>)
    ensures IsSubsequence(AgainstColumns(columns), columns)
    ensures forall c :: multiset(AgainstColumns(columns))[c] == if IsAgainstColumn(c) then multiset(columns)[c] else 0
    ensures AgainstColumns(AgainstColumns(columns)) == AgainstColumns(columns)
  {
    KeepIsSubsequence(columns, IsAgainstColumn);
    forall c ensures multiset(AgainstColumns(columns))[c] == if IsAgainstColumn(c) then multiset(columns)[c] else 0 {
      KeepCount(columns, IsAgainstColumn, c);
    }
    KeepIdempotent(columns, IsAgainstColumn);
  }

  /** Python's `s.replace(pat, rep)`: every occurrence of `pat`, found left to
      right without overlap, is replaced; the replacement text is not rescanned. */
  function Replace(s: string, pat: string, rep: string): (r: string)
    requires pat != []
    ensures |rep| <= |pat| ==> |r| <= |s|
    ensures |rep| == |pat| ==> |r| == |s|
    decreases |s|
  {
    if |s| < |pat| then s
    else if s[..|pat|] == pat then rep + Replace(s[|pat|..], pat, rep)
    else [s[0]] + Replace(s[1..], pat, rep)
  }

  /** `pat` occurs in `s` starting at index `i`. */
  predicate OccursAt(s: string, pat: string, i: int)
  {
    0 <= i && i + |pat| <= |s| && s[i..i + |pat|] == pat
  }

  /** `pat` occurs somewhere in `s`. */
  predicate Occurs(s: string, pat: string)
  {
    exists i | 0 <= i <= |s| :: OccursAt(s, pat, i)
  }

  /** Replacing a pattern that does not occur leaves the text as it was. */
  lemma {:induction false} ReplaceAbsent(s: string, pat: string, rep: string)
    requires pat != [] && !Occurs(s, pat)
    ensures Replace(s, pat, rep) == s
  {
    if |s| >= |pat| {
      assert s[0..|pat|] == s[..|pat|];
      assert !OccursAt(s, pat, 0);
      var tail := s[1..];
      assert !Occurs(tail, pat) by {
        if Occurs(tail, pat) {
          var i :| 0 <= i <= |tail| && OccursAt(tail, pat, i);
          assert 0 <= i && i + |pat| <= |tail| && tail[i..i + |pat|] == pat;
          assert s[i + 1..i + 1 + |pat|] == tail[i..i + |pat|];
          assert OccursAt(s, pat, i + 1);
        }
      }
      ReplaceAbsent(tail, pat, rep);
    }
  }

  /** `col.replace('Against ', '')`: the label of a matchup column. */
  function TypeLabel(col: string): (t: string)
    ensures |t| <= |col|
  {
    Replace(col, LabelPrefix, "")
  }

  /** A header "Against T" is labelled T whenever T does not itself contain
      "Against "; a header without that text, such as "AgainstFire", keeps it. */
  lemma TypeLabelOfHeader(t: string)
    ensures !Occurs(t, LabelPrefix) ==> TypeLabel(LabelPrefix + t) == t
    ensures !Occurs(t, LabelPrefix) ==> TypeLabel(t) == t
  {
    if !Occurs(t, LabelPrefix) {
      var h := LabelPrefix + t;
      assert h[..|LabelPrefix|] == LabelPrefix;
      assert h[|LabelPrefix|..] == t;
      ReplaceAbsent(t, LabelPrefix, "");
    }
  }

  /** `types`: one label per matchup column, index-aligned with the columns. */
  function TypeLabels(cols: seq<string>): (labels: seq<string>)
    ensures |labels| == |cols|
    ensures forall j :: 0 <= j < |cols| ==> labels[j] == TypeLabel(cols[j])
  {
    seq(|cols|, j requires 0 <= j < |cols| => TypeLabel(cols[j]))
  }

  /** The row carries a multiplier for each of `cols`. */
  predicate RowHasMatchups(row: Row, cols: seq<string>)
  {
    forall j :: 0 <= j < |cols| ==> cols[j] in row.against
  }

  /** The row carries each of `stats`. */
  predicate RowHasStats(row: Row, stats: seq<string>)
  {
    forall j :: 0 <= j < |stats| ==> stats[j] in row.stats
  }

  /** Every row carries a multiplier for each of `cols`. */
  predicate HasMatchups(rows: seq<Row>, cols: seq<string>)
  {
    forall k :: 0 <= k < |rows| ==> RowHasMatchups(rows[k], cols)
  }

  /** Every row carries each of `stats`. */
  predicate HasStats(rows: seq<Row>, stats: seq<string>)
  {
    forall k :: 0 <= k < |rows| ==> RowHasStats(rows[k], stats)
  }

  /** A dataset the handlers can serve: every row has the six stats and every
      discovered matchup column (pandas raises a KeyError otherwise). */
  predicate WellFormed(ds: Dataset)
  {
    HasStats(ds.rows, StatColumns) && HasMatchups(ds.rows, AgainstColumns(ds.columns))
  }

  /** `pokemon_row[against_columns].values`: one row's multipliers in column order. */
  function MatchupVector(row: Row, cols: seq<string>): (v: seq<real>)
    requires RowHasMatchups(row, cols)
    ensures |v| == |cols|
    ensures forall j :: 0 <= j < |cols| ==> v[j] == row.against[cols[j]]
  {
    seq(|cols|, j requires 0 <= j < |cols| => row.against[cols[j]])
  }

  /** The `Name` column of `rows`, in row order. */
  function Names(rows: seq<Row>): (names: seq<string>)
    ensures |names| == |rows|
    ensures forall k :: 0 <= k < |rows| ==> names[k] == rows[k].name
    ensures ElemSet(names) == NameSet(rows)
  {
    seq(|rows|, k requires 0 <= k < |rows| => rows[k].name)
  }

  /** The `Name` values of `rows`, as a set. */
  function NameSet(rows: seq<Row>): (names: set<string>)
  {
    set r | r in rows :: r.name
  }

  /** No name labels two rows. */
  predicate UniqueNames(rows: seq<Row>)
  {
    forall i, j :: 0 <= i < j < |rows| ==> rows[i].name != rows[j].name
  }

  /** The mask `data['Name'].isin(names)`, as a test on one row. */
  function NameIn(names: seq<string>): Row -> bool
  {
    (row: Row) => row.name in names
  }

  /** `data[data['Name'].isin(names)]`: exactly the rows whose name is selected. */
  function Filter(rows: seq<Row>, names: seq<string>): (r: seq<Row>)
    ensures forall row :: row in r <==> row in rows && row.name in names
  {
    Keep(rows, NameIn(names))
  }

  /** The filter keeps the dataset's row order, not the order of the selection,
      keeps every selected row as often as it occurs, and keeps nothing else. */
  lemma FilterKeepsDatasetOrder(rows: seq<Row>, names: seq<string>)
    ensures IsSubsequence(Filter(rows, names), rows)
    ensures forall row :: multiset(Filter(rows, names))[row] == if row.name in names then multiset(rows)[row] else 0
  {
    KeepIsSubsequence(rows, NameIn(names));
    forall row ensures multiset(Filter(rows, names))[row] == if row.name in names then multiset(rows)[row] else 0 {
      KeepCount(rows, NameIn(names), row);
    }
  }

  /** Filtering a concatenation of datasets filters each part. */
  lemma FilterAppend(rows: seq<Row>, more: seq<Row>, names: seq<string>)
    ensures Filter(rows + more, names) == Filter(rows, names) + Filter(more, names)
  {
    KeepAppend(rows, more, NameIn(names));
  }

  /** Selected names that label no row contribute nothing: two selections that
      agree on the dataset's names pick the same rows. */
  lemma FilterIgnoresAbsentNames(rows: seq<Row>, names: seq<string>, others: seq<string>)
    requires forall r :: r in rows ==> (r.name in names <==> r.name in others)
    ensures Filter(rows, names) == Filter(rows, others)
  {
    KeepCongruent(rows, NameIn(names), NameIn(others));
  }

  /** The names shown are the selected names that the dataset knows. */
  lemma FilterNames(rows: seq<Row>, names: seq<string>)
    ensures NameSet(Filter(rows, names)) == NameSet(rows) * ElemSet(names)
  {
    var f := Filter(rows, names);
    forall n ensures n in NameSet(f) <==> n in NameSet(rows) * ElemSet(names) {
      if n in NameSet(rows) * ElemSet(names) {
        var r :| r in rows && r.name == n;
        assert r in f;
      }
    }
  }

  /** Filtering a non-empty dataset: the first row if it is selected, then
      the filtered rest. */
  lemma FilterCons(rows: seq<Row>, names: seq<string>)
    requires rows != []
    ensures Filter(rows, names) == (if rows[0].name in names then [rows[0]] else []) + Filter(rows[1..], names)
  {
  }

  /** The names of a non-empty dataset: the first row's and the rest's; with
      unique names the first is not among the rest. */
  lemma NameSetCons(rows: seq<Row>)
    requires rows != []
    ensures NameSet(rows) == {rows[0].name} + NameSet(rows[1..])
    ensures UniqueNames(rows) ==> UniqueNames(rows[1..]) && rows[0].name !in NameSet(rows[1..])
  {
    var rest := rows[1..];
    assert rows == [rows[0]] + rest;
    if UniqueNames(rows) {
      forall r | r in rest ensures r.name != rows[0].name {
        var k :| 0 <= k < |rest| && rest[k] == r;
        assert rows[k + 1] == r;
      }
    }
  }

  /** Adding an element that is new to `a` and belongs to `s` grows `a * s` by one. */
  lemma IntersectInsert(x: string, a: set<string>, s: set<string>)
    requires x !in a
    ensures x in s ==> |({x} + a) * s| == 1 + |a * s|
    ensures x !in s ==> ({x} + a) * s == a * s
  {
    if x in s {
      assert ({x} + a) * s == {x} + a * s;
    }
  }

  /** With unique dataset names, the filter returns one row per selected name
      that the dataset knows. */
  lemma {:induction false} FilterCount(rows: seq<Row>, names: seq<string>)
    requires UniqueNames(rows)
    ensures |Filter(rows, names)| == |NameSet(rows) * ElemSet(names)|
  {
    if rows != [] {
      var rest := rows[1..];
      NameSetCons(rows);
      FilterCons(rows, names);
      FilterCount(rest, names);
      IntersectInsert(rows[0].name, NameSet(rest), ElemSet(names));
      assert rows[0].name in ElemSet(names) <==> rows[0].name in names;
    }
  }

  /** For a selection of distinct names over a dataset with unique names, the
      filter never returns more rows than names, and returns as many exactly
      when every selected name is in the dataset; a missing name silently
      shrinks the result. */
  lemma FilterResolvesSelection(rows: seq<Row>, names: seq<string>)
    requires UniqueNames(rows) && Distinct(names)
    ensures |Filter(rows, names)| <= |names|
    ensures |Filter(rows, names)| == |names| <==> forall n :: n in names ==> n in NameSet(rows)
  {
    FilterCount(rows, names);
    ElemSetCard(names);
    var s := ElemSet(names);
    if forall n :: n in names ==> n in NameSet(rows) {
      assert NameSet(rows) * s == s;
    } else {
      var n :| n in names && n !in NameSet(rows);
      assert n in s;
      var inter := NameSet(rows) * s;
      assert s - {n} == inter + (s - {n} - inter);
      assert |s - {n}| == |inter| + |s - {n} - inter|;
      assert |s - {n}| == |s| - 1;
    }
  }

  /** Names are not deduplicated: a dataset that lists a name twice yields both
      rows for one selected name. */
  lemma DuplicateNamesAreBothKept(a: Row, b: Row)
    requires a.name == b.name && a != b
    ensures Filter([a, b], [a.name]) == [a, b]
  {
    assert [a, b][1..] == [b];
  }
}
