/** The current handler file (`app.py`): `/analyze` checks the six slots,
    filters the dataset and builds a combined matchup heatmap, the radar and
    stacked-bar traces, the mean radar, the histogram and one bar chart per
    selected Pokémon; `/exploratory` lays out one histogram per stat. */
module App {
  import opened Seqs
  import opened Selection
  import opened Table
  import opened Stats
  import opened Grid

  /** `radar_categories`: HP, Att, Def, Spa, Spd, Spe. */
  const RadarCategories: seq<string> := ["HP", "Att", "Def", "Spa", "Spd", "Spe"]

  /** One colour per stat for the individual bar charts. */
  const Colors: seq<string> := ["#FF5733", "#33FF57", "#3357FF", "#FF33A6", "#FFC300", "#C700FF"]

  /** The text before the Pokémon's name in an individual chart's title. */
  const TitlePrefix: string := "Estat\U{ED}sticas de "

  /** The matchup heatmap's table: `z` has one row per filtered Pokémon and one
      column per matchup column, `x` labels the columns, `y` the rows. */
  datatype Heatmap = Heatmap(z: seq<seq<real>>, x: seq<string>, y: seq<string>)

  /** `create_combined_matchup_heatmap`: the filtered rows' multipliers against
      every matchup column, labelled by type and by name. */
  function CombinedMatchupHeatmap(rows: seq<Row>, againstColumns: seq<string>): (h: Heatmap)
    requires HasMatchups(rows, againstColumns)
    ensures |h.z| == |h.y| == |rows| && |h.x| == |againstColumns|
    ensures forall k :: 0 <= k < |rows| ==> |h.z[k]| == |againstColumns| && h.y[k] == rows[k].name
    ensures forall k, j :: 0 <= k < |rows| && 0 <= j < |againstColumns| ==>
      h.z[k][j] == rows[k].against[againstColumns[j]]
    ensures forall j :: 0 <= j < |againstColumns| ==> h.x[j] == TypeLabel(againstColumns[j])
  {
    Heatmap(
      seq(|rows|, k requires 0 <= k < |rows| => MatchupVector(rows[k], againstColumns)),
      TypeLabels(againstColumns),
      Names(rows))
  }

  /** The heatmap's type axis is a property of the dataset's header: two
      selections from one dataset get the same axis, and their rows carry the
      names of exactly the selected Pokémon the dataset knows. */
  lemma HeatmapAxesOfSelections(ds: Dataset, names: seq<string>, others: seq<string>)
    requires WellFormed(ds)
    ensures HasMatchups(Filter(ds.rows, names), AgainstColumns(ds.columns))
    ensures HasMatchups(Filter(ds.rows, others), AgainstColumns(ds.columns))
    ensures CombinedMatchupHeatmap(Filter(ds.rows, names), AgainstColumns(ds.columns)).x
         == CombinedMatchupHeatmap(Filter(ds.rows, others), AgainstColumns(ds.columns)).x
    ensures ElemSet(CombinedMatchupHeatmap(Filter(ds.rows, names), AgainstColumns(ds.columns)).y)
         == NameSet(ds.rows) * ElemSet(names)
  {
    FilterPreservesColumns(ds, names);
    FilterPreservesColumns(ds, others);
    var rows := Filter(ds.rows, names);
    var h := CombinedMatchupHeatmap(rows, AgainstColumns(ds.columns));
    FilterNames(ds.rows, names);
    assert ElemSet(h.y) == NameSet(rows) by {
      forall n ensures n in ElemSet(h.y) <==> n in NameSet(rows) {
        if n in NameSet(rows) {
          var r :| r in rows && r.name == n;
          var k :| 0 <= k < |rows| && rows[k] == r;
          assert h.y[k] == n;
        }
      }
    }
  }

  /** Filtered rows keep every column the dataset guarantees. */
  lemma FilterPreservesColumns(ds: Dataset, names: seq<string>)
    requires WellFormed(ds)
    ensures HasStats(Filter(ds.rows, names), StatColumns)
    ensures HasMatchups(Filter(ds.rows, names), AgainstColumns(ds.columns))
  {
    var rows := Filter(ds.rows, names);
    forall k | 0 <= k < |rows| ensures rows[k] in ds.rows {
      assert rows[k] in rows;
    }
  }

  /** Passing the slot check does not guarantee six charts: over a dataset
      with unique names the filter yields at most six rows, and exactly six
      only when every selected name is in the dataset. */
  lemma SelectionRowCount(ds: Dataset, slots: seq<Option<string>>)
    requires |slots| == SlotCount && Accepts(slots) && UniqueNames(ds.rows)
    ensures AllFilled(slots)
    ensures |Filter(ds.rows, SelectedNames(slots))| <= SlotCount
    ensures |Filter(ds.rows, SelectedNames(slots))| == SlotCount
        <==> forall i :: 0 <= i < SlotCount ==> slots[i].value in NameSet(ds.rows)
  {
    AcceptsIffFilledAndDistinct(slots);
    var names := SelectedNames(slots);
    FilterResolvesSelection(ds.rows, names);
    if forall i :: 0 <= i < SlotCount ==> slots[i].value in NameSet(ds.rows) {
      forall n | n in names ensures n in NameSet(ds.rows) {
        var i :| 0 <= i < |names| && names[i] == n;
        assert slots[i].value == n;
      }
    } else {
      var i :| 0 <= i < SlotCount && slots[i].value !in NameSet(ds.rows);
      assert names[i] in names;
    }
  }

  /** One bar of an individual chart. */
  datatype Bar = Bar(attribute: string, value: int, color: string)

  /** One individual bar chart: its title and its bars, left to right. */
  datatype BarChart = BarChart(title: string, bars: seq<Bar>)

  /** The chart the loop body builds for one Pokémon: one bar per radar
      category, in that order, coloured `Colors[i]`. */
  function IndividualChart(row: Row): (chart: BarChart)
    requires RowHasStats(row, RadarCategories)
    ensures chart.title == TitlePrefix + row.name
    ensures |chart.bars| == |RadarCategories|
    ensures forall i :: 0 <= i < |RadarCategories| ==>
      chart.bars[i] == Bar(RadarCategories[i], row.stats[RadarCategories[i]], Colors[i])
  {
    BarChart(TitlePrefix + row.name,
      seq(|RadarCategories|, i requires 0 <= i < |RadarCategories| =>
        Bar(RadarCategories[i], row.stats[RadarCategories[i]], Colors[i])))
  }

  /** An individual chart shows the same numbers as the Pokémon's radar trace,
      each stat under its own colour, and its title names the Pokémon. */
  lemma IndividualChartMatchesRadar(row: Row)
    requires RowHasStats(row, RadarCategories)
    ensures var chart := IndividualChart(row);
      && (forall i :: 0 <= i < |chart.bars| ==>
            && chart.bars[i].attribute == RadarCategories[i]
            && chart.bars[i].color == Colors[i]
            && chart.bars[i].value == StatVector(row, RadarCategories)[i])
      && (forall i, j :: 0 <= i < j < |chart.bars| ==> chart.bars[i].color != chart.bars[j].color)
      && chart.title[|TitlePrefix|..] == row.name
  {
    var chart := IndividualChart(row);
    forall i, j | 0 <= i < j < |chart.bars| ensures chart.bars[i].color != chart.bars[j].color {
      assert chart.bars[i].color == Colors[i] && chart.bars[j].color == Colors[j];
    }
  }

  /** The loop over `filtered_data.iterrows()` that appends one chart per row,
      each built by an inner loop over the radar categories. */
  method IndividualBarCharts(rows: seq<Row>) returns (charts: seq<BarChart>)
    requires HasStats(rows, RadarCategories)
    ensures |charts| == |rows|
    ensures forall k :: 0 <= k < |rows| ==> charts[k] == IndividualChart(rows[k])
  {
    charts := [];
    for k := 0 to |rows|
      invariant |charts| == k
      invariant forall m :: 0 <= m < k ==> charts[m] == IndividualChart(rows[m])
    {
      var row := rows[k];
      assert RowHasStats(row, RadarCategories);
      var bars: seq<Bar> := [];
      for i := 0 to |RadarCategories|
        invariant |bars| == i
        invariant forall m :: 0 <= m < i ==> bars[m] == IndividualChart(row).bars[m]
      {
        var attribute := RadarCategories[i];
        bars := bars + [Bar(attribute, row.stats[attribute], Colors[i])];
      }
      charts := charts + [BarChart(TitlePrefix + row.name, bars)];
    }
  }

  /** The loop of `exploratory_analysis`: panel `i` gets stat `Attributes[i]`
      at row `i / 3 + 1`, column `i % 3 + 1`. */
  method ExploratoryLayout(rows: seq<Row>) returns (panels: seq<Panel>)
    requires HasStats(rows, Attributes)
    ensures panels == Layout(rows, Attributes)
  {
    panels := [];
    for i := 0 to |Attributes|
      invariant |panels| == i
      invariant forall m :: 0 <= m < i ==> panels[m] == Layout(rows, Attributes)[m]
    {
      var attribute := Attributes[i];
      var row := i / GridCols + 1;
      var col := i % GridCols + 1;
      panels := panels + [Panel(attribute, (row, col), Column(rows, attribute))];
    }
  }

  /** Everything `/analyze` renders from the filtered rows. */
  datatype Page = Page(
    matchup: Heatmap,
    radar: seq<Trace>,
    stacked: seq<Trace>,
    meanRadar: seq<Average>,
    histogram: seq<multiset<int>>,
    individual: seq<BarChart>)

  /** The `/analyze` handler: reject unless the six slots hold six different
      names, then build every chart from the rows the filter keeps. */
  method Analyze(ds: Dataset, slots: seq<Option<string>>) returns (r: Outcome<Page>)
    requires WellFormed(ds) && |slots| == SlotCount
    ensures r.Rejected? <==> !(AllFilled(slots) && Distinct(slots))
    ensures r.Rendered? ==>
      var names := SelectedNames(slots);
      var rows := Filter(ds.rows, names);
      var page := r.page;
      && HasStats(rows, StatColumns)
      && HasMatchups(rows, AgainstColumns(ds.columns))
      && page.matchup == CombinedMatchupHeatmap(rows, AgainstColumns(ds.columns))
      && ElemSet(page.matchup.y) == NameSet(ds.rows) * ElemSet(names)
      && page.radar == StatTraces(rows, RadarCategories)
      && page.stacked == page.radar
      && page.meanRadar == MeanRow(rows, RadarCategories)
      && |page.histogram| == |RadarCategories|
      && (forall i :: 0 <= i < |RadarCategories| ==> page.histogram[i] == Distribution(rows, RadarCategories[i]))
      && |page.individual| == |rows|
      && (forall k :: 0 <= k < |rows| ==> page.individual[k] == IndividualChart(rows[k]))
  {
    AcceptsIffFilledAndDistinct(slots);
    if None in slots || |ElemSet(slots)| < SlotCount {
      return Rejected;
    }
    var names := SelectedNames(slots);
    var rows := Filter(ds.rows, names);
    FilterPreservesColumns(ds, names);
    HeatmapAxesOfSelections(ds, names, names);
    var againstColumns := AgainstColumns(ds.columns);
    var matchup := CombinedMatchupHeatmap(rows, againstColumns);
    var radar := StatTraces(rows, RadarCategories);
    var meanRadar := MeanRow(rows, RadarCategories);
    var histogram := seq(|RadarCategories|, i requires 0 <= i < |RadarCategories| =>
      Distribution(rows, RadarCategories[i]));
    var individual := IndividualBarCharts(rows);
    r := Rendered(Page(matchup, radar, radar, meanRadar, histogram, individual));
  }
}
