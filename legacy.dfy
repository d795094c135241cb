/** The earlier handler file (`pokemon_stats/app.py`): the same slot check and
    filter, but one matchup bar chart per Pokémon collected in a dictionary
    keyed by name, and the stats in the order HP, Att, Def, Spe, Spa, Spd. */
module Legacy {
  import opened Seqs
  import opened Selection
  import opened Table
  import opened Stats

  /** `radar_categories` in this file: Speed comes fourth, not last. */
  const RadarCategories: seq<string> := ["HP", "Att", "Def", "Spe", "Spa", "Spd"]

  /** Entry i of this order is entry `Reorder[i]` of `app.py`'s `stats_columns`. */
  const Reorder: seq<int> := [0, 1, 2, 5, 3, 4]

  /** `Reorder` is a permutation of the six positions, so this order lists the
      same six stats as `app.py`'s `stats_columns`, with Speed moved from last
      to fourth. */
  lemma CategoriesReorderStatColumns()
    ensures |Reorder| == |RadarCategories| == |StatColumns|
    ensures Distinct(Reorder) && forall i :: 0 <= i < |Reorder| ==> 0 <= Reorder[i] < |StatColumns|
    ensures forall i :: 0 <= i < |RadarCategories| ==> RadarCategories[i] == StatColumns[Reorder[i]]
    ensures RadarCategories[3] == "Spe" != StatColumns[3]
  {
  }

  /** Each Pokémon's vector in this file is its vector over `app.py`'s
      `stats_columns` permuted by `Reorder`: the same numbers, Speed fourth. */
  lemma StatVectorReordered(row: Row)
    requires RowHasStats(row, StatColumns)
    ensures RowHasStats(row, RadarCategories)
    ensures forall i :: 0 <= i < |RadarCategories| ==>
      StatVector(row, RadarCategories)[i] == StatVector(row, StatColumns)[Reorder[i]]
  {
    CategoriesReorderStatColumns();
  }

  /** The bar chart `create_matchup_heatmap` draws for one Pokémon: `x` the
      type labels, `y` the multipliers, titled by the Pokémon's name. */
  datatype MatchupBars = MatchupBars(name: string, x: seq<string>, y: seq<real>)

  /** `create_matchup_heatmap(pokemon_row)`: multipliers and labels for every
      matchup column, index-aligned. */
  function MatchupHeatmap(row: Row, againstColumns: seq<string>): (b: MatchupBars)
    requires RowHasMatchups(row, againstColumns)
    ensures b.name == row.name
    ensures |b.x| == |b.y| == |againstColumns|
    ensures forall j :: 0 <= j < |againstColumns| ==>
      b.x[j] == TypeLabel(againstColumns[j]) && b.y[j] == row.against[againstColumns[j]]
  {
    MatchupBars(row.name, TypeLabels(againstColumns), MatchupVector(row, againstColumns))
  }

  /** `{row['Name']: create_matchup_heatmap(row) for _, row in filtered_data.iterrows()}`:
      built in row order, so a later row overwrites an earlier one of the same name. */
  function MatchupGraphs(rows: seq<Row>, againstColumns: seq<string>): (m: map<string, MatchupBars>)
    requires HasMatchups(rows, againstColumns)
    ensures m.Keys == NameSet(rows)
    decreases |rows|
  {
    if rows == [] then map[]
    else
      var init := rows[..|rows| - 1];
      var last := rows[|rows| - 1];
      assert HasMatchups(init, againstColumns) by {
        forall k | 0 <= k < |init| ensures RowHasMatchups(init[k], againstColumns) {
          assert init[k] == rows[k];
        }
      }
      assert NameSet(rows) == NameSet(init) + {last.name} by {
        assert rows == init + [last];
      }
      MatchupGraphs(init, againstColumns)[last.name := MatchupHeatmap(last, againstColumns)]
  }

  /** Each name's entry is the chart of the LAST row with that name. */
  lemma {:induction false} MatchupGraphsLastWins(rows: seq<Row>, againstColumns: seq<string>, name: string)
    requires HasMatchups(rows, againstColumns)
    requires name in NameSet(rows)
    ensures exists k :: (0 <= k < |rows| && rows[k].name == name
      && MatchupGraphs(rows, againstColumns)[name] == MatchupHeatmap(rows[k], againstColumns)
      && forall j :: k < j < |rows| ==> rows[j].name != name)
    decreases |rows|
  {
    var n := |rows|;
    var init := rows[..n - 1];
    var last := rows[n - 1];
    if last.name == name {
      assert MatchupGraphs(rows, againstColumns)[name] == MatchupHeatmap(rows[n - 1], againstColumns);
    } else {
      assert HasMatchups(init, againstColumns) by {
        forall k | 0 <= k < |init| ensures RowHasMatchups(init[k], againstColumns) {
          assert init[k] == rows[k];
        }
      }
      assert name in NameSet(init) by {
        var r :| r in rows && r.name == name;
        var k :| 0 <= k < n && rows[k] == r;
        assert k < n - 1 && init[k] == r;
      }
      MatchupGraphsLastWins(init, againstColumns, name);
      var k :| 0 <= k < |init| && init[k].name == name
        && MatchupGraphs(init, againstColumns)[name] == MatchupHeatmap(init[k], againstColumns)
        && forall j :: k < j < |init| ==> init[j].name != name;
      assert rows[k] == init[k];
      assert forall j :: k < j < n ==> rows[j].name != name by {
        forall j | k < j < n ensures rows[j].name != name {
          if j < n - 1 {
            assert rows[j] == init[j];
          }
        }
      }
    }
  }

  /** With unique dataset names the dictionary holds one chart per filtered
      row, and each row's chart sits under its name. */
  lemma MatchupGraphsOfUniqueNames(rows: seq<Row>, againstColumns: seq<string>)
    requires HasMatchups(rows, againstColumns) && UniqueNames(rows)
    ensures forall k :: 0 <= k < |rows| ==>
      MatchupGraphs(rows, againstColumns)[rows[k].name] == MatchupHeatmap(rows[k], againstColumns)
  {
    forall k | 0 <= k < |rows|
      ensures MatchupGraphs(rows, againstColumns)[rows[k].name] == MatchupHeatmap(rows[k], againstColumns)
    {
      assert rows[k] in rows;
      MatchupGraphsLastWins(rows, againstColumns, rows[k].name);
    }
  }

  /** The order in which the template sees the dictionary's keys: Python
      dicts keep insertion order, so each name sits where its first filtered
      row is, even when a later row with that name overwrote its chart. */
  function MatchupOrder(rows: seq<Row>): (keys: seq<string>)
    ensures Distinct(keys)
    ensures ElemSet(keys) == NameSet(rows)
  {
    InsertionOrder(Names(rows))
  }

  /** The name of filtered row `k`, when no earlier row has it, is the key
      that follows the names of the rows before `k`. */
  lemma MatchupOrderFirstOccurrence(rows: seq<Row>, k: int)
    requires 0 <= k < |rows|
    requires forall j :: 0 <= j < k ==> rows[j].name != rows[k].name
    ensures MatchupOrder(rows[..k]) <= MatchupOrder(rows)
    ensures |MatchupOrder(rows[..k])| < |MatchupOrder(rows)|
    ensures MatchupOrder(rows)[|MatchupOrder(rows[..k])|] == rows[k].name
  {
    var names := Names(rows);
    assert Names(rows[..k]) == names[..k];
    assert names[k] !in names[..k] by {
      forall j | 0 <= j < k ensures names[..k][j] != names[k] {
        assert names[..k][j] == rows[j].name;
      }
    }
    InsertionOrderExtends(names, k);
    InsertionOrderFirstOccurrence(names, k);
  }

  /** Everything this `/analyze` renders from the filtered rows; the matchup
      dictionary is its entries and its key order. */
  datatype Page = Page(
    matchups: map<string, MatchupBars>,
    matchupOrder: seq<string>,
    radar: seq<Trace>,
    stacked: seq<Trace>,
    meanRadar: seq<Average>,
    histogram: seq<multiset<int>>)

  /** The `/analyze` handler of this file: reject unless the six slots hold six
      different names, then build every chart from the filtered rows; all stat
      charts use this file's `RadarCategories`. */
  function Analyze(ds: Dataset, slots: seq<Option<string>>): (r: Outcome<Page>)
    requires WellFormed(ds) && |slots| == SlotCount
    ensures r.Rejected? <==> !(AllFilled(slots) && Distinct(slots))
    ensures r.Rendered? ==>
      var rows := Filter(ds.rows, SelectedNames(slots));
      var page := r.page;
      && HasStats(rows, RadarCategories)
      && HasMatchups(rows, AgainstColumns(ds.columns))
      && page.matchups == MatchupGraphs(rows, AgainstColumns(ds.columns))
      && page.matchups.Keys == NameSet(ds.rows) * ElemSet(SelectedNames(slots))
      && page.matchupOrder == MatchupOrder(rows)
      && ElemSet(page.matchupOrder) == page.matchups.Keys
      && |page.radar| == |rows| && page.stacked == page.radar
      && (forall k :: 0 <= k < |rows| ==>
            page.radar[k] == Trace(rows[k].name, StatVector(rows[k], RadarCategories)))
      && page.meanRadar == MeanRow(rows, RadarCategories)
      && |page.histogram| == |RadarCategories|
      && (forall i :: 0 <= i < |RadarCategories| ==> page.histogram[i] == Distribution(rows, RadarCategories[i]))
  {
    AcceptsIffFilledAndDistinct(slots);
    if None in slots || |ElemSet(slots)| < SlotCount then Rejected
    else
      var names := SelectedNames(slots);
      var rows := Filter(ds.rows, names);
      var againstColumns := AgainstColumns(ds.columns);
      assert HasStats(rows, RadarCategories) && HasMatchups(rows, againstColumns) by {
        forall k | 0 <= k < |rows|
          ensures RowHasStats(rows[k], RadarCategories) && RowHasMatchups(rows[k], againstColumns)
        {
          assert rows[k] in rows;
          var i :| 0 <= i < |ds.rows| && ds.rows[i] == rows[k];
          StatVectorReordered(rows[k]);
        }
      }
      FilterNames(ds.rows, names);
      var graphs := MatchupGraphs(rows, againstColumns);
      var order := MatchupOrder(rows);
      assert graphs.Keys == NameSet(rows) == ElemSet(order);
      var radar := StatTraces(rows, RadarCategories);
      Rendered(Page(
        graphs,
        order,
        radar,
        radar,
        MeanRow(rows, RadarCategories),
        seq(|RadarCategories|, i requires 0 <= i < |RadarCategories| => Distribution(rows, RadarCategories[i]))))
  }
}
