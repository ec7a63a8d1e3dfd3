/**
 The tables behind the dashboard's tabs, each computed from the filtered
 frame: the mean net sales and items purchased per (gender, city), the mean
 net sales per city, the row count per acquisition channel (the pie chart), and
 the share of each satisfaction level within each channel (the pivot table).
 */
module Views {
  import opened SalesTable
  import opened RowFilter
  import opened Grouping

  // The columns the views group by and average.

  function GenderAndCity(r: Record): (string, string) { (r.gender, r.city) }

  function City(r: Record): string { r.city }

  function Channel(r: Record): string { r.acquisitionChannel }

  function Satisfaction(r: Record): string { r.satisfactionLevel }

  function ChannelAndSatisfaction(r: Record): (string, string) { (r.acquisitionChannel, r.satisfactionLevel) }

  function NetSales(r: Record): real { r.netSales }

  function ItemsPurchased(r: Record): real { r.itemsPurchased as real }

  /** One row of the overview table: the two column means of one group. */
  datatype SummaryRow = SummaryRow(meanNetSales: real, meanItemsPurchased: real)

  /** The overview table: one row per (gender, city) pair that occurs, holding
      the mean net sales and the mean items purchased over that pair's rows. */
  function SummaryByGenderCity(t: Table): (m: map<(string, string), SummaryRow>)
    ensures m.Keys == KeySet(t, GenderAndCity)
    ensures forall k :: k in m ==>
      && IsQuotient(m[k].meanNetSales, GroupSums(t, GenderAndCity, NetSales)[k], GroupCounts(t, GenderAndCity)[k] as real)
      && IsQuotient(m[k].meanItemsPurchased, GroupSums(t, GenderAndCity, ItemsPurchased)[k], GroupCounts(t, GenderAndCity)[k] as real)
  {
    var sales := GroupMeans(t, GenderAndCity, NetSales);
    var items := GroupMeans(t, GenderAndCity, ItemsPurchased);
    map k | k in sales :: SummaryRow(sales[k], items[k])
  }

  /** The bar chart of mean net sales per city. */
  function AverageSalesByCity(t: Table): (m: map<string, real>)
    ensures m.Keys == KeySet(t, City)
    ensures forall c :: c in m ==> IsQuotient(m[c], GroupSums(t, City, NetSales)[c], GroupCounts(t, City)[c] as real)
  {
    GroupMeans(t, City, NetSales)
  }

  /** The mean net sales of each city, times the city's row count, added over
      all cities, give back the total net sales of the table. */
  lemma CityAveragesAddUpToTotalSales(t: Table, cities: seq<string>)
    requires Enumerates(cities, AverageSalesByCity(t).Keys)
    ensures SumValues(Weighted(AverageSalesByCity(t), GroupCounts(t, City)), cities) == Sum(t, NetSales)
  {
    MeansTimesCountsAddUp(t, City, NetSales, cities);
  }

  /** One column of the overview table. */
  function SalesColumn(s: map<(string, string), SummaryRow>): map<(string, string), real> {
    map k | k in s :: s[k].meanNetSales
  }

  function ItemsColumn(s: map<(string, string), SummaryRow>): map<(string, string), real> {
    map k | k in s :: s[k].meanItemsPurchased
  }

  /** Taking apart rows built from two columns gives back the columns. */
  lemma ColumnsOfRows(sales: map<(string, string), real>, items: map<(string, string), real>)
    requires sales.Keys == items.Keys
    ensures SalesColumn(map k | k in sales :: SummaryRow(sales[k], items[k])) == sales
    ensures ItemsColumn(map k | k in sales :: SummaryRow(sales[k], items[k])) == items
  {
  }

  /** The overview table's columns are the two group-by means. */
  lemma SummaryColumnsAreMeans(t: Table)
    ensures SalesColumn(SummaryByGenderCity(t)) == GroupMeans(t, GenderAndCity, NetSales)
    ensures ItemsColumn(SummaryByGenderCity(t)) == GroupMeans(t, GenderAndCity, ItemsPurchased)
  {
    var sales, items := GroupMeans(t, GenderAndCity, NetSales), GroupMeans(t, GenderAndCity, ItemsPurchased);
    ColumnsOfRows(sales, items);
  }

  /** The same for the overview table's two columns: each row's mean times
      its group's size, added over the rows, gives back the table's total net
      sales and total items purchased. */
  lemma SummaryAddsUpToTotalSales(t: Table, pairs: seq<(string, string)>)
    requires Enumerates(pairs, SummaryByGenderCity(t).Keys)
    ensures SumValues(Weighted(SalesColumn(SummaryByGenderCity(t)), GroupCounts(t, GenderAndCity)), pairs) == Sum(t, NetSales)
    ensures SumValues(Weighted(ItemsColumn(SummaryByGenderCity(t)), GroupCounts(t, GenderAndCity)), pairs) == Sum(t, ItemsPurchased)
  {
    SummaryColumnsAreMeans(t);
    MeansTimesCountsAddUp(t, GenderAndCity, NetSales, pairs);
    MeansTimesCountsAddUp(t, GenderAndCity, ItemsPurchased, pairs);
  }

  /** The acquisition-channel pie chart: the row count of each channel that
      occurs, each slice sized by its count. */
  function ChannelCounts(t: Table): (m: map<string, nat>)
    ensures m.Keys == KeySet(t, Channel)
    ensures forall c :: c in m ==> m[c] > 0 && m[c] == |Group(t, Channel, c)|
  {
    GroupCounts(t, Channel)
  }

  /** The pie's slices cover every row once. */
  lemma ChannelCountsSumToRowCount(t: Table, channels: seq<string>)
    requires Enumerates(channels, ChannelCounts(t).Keys)
    ensures SumCounts(ChannelCounts(t), channels) == |t|
  {
    CountsSumToRowCount(t, Channel, channels);
  }

  /** The fraction of the pie each slice takes; on a non-empty table they add
      up to the whole pie. */
  lemma ChannelSharesSumToOne(t: Table, channels: seq<string>)
    requires |t| > 0
    requires Enumerates(channels, Shares(t, Channel).Keys)
    ensures SumValues(Shares(t, Channel), channels) == 1.0
  {
    SharesSumToOne(t, Channel, channels);
  }

  /** Row count per (channel, satisfaction level) pair that occurs. */
  function ChannelSatisfactionCounts(t: Table): (m: map<(string, string), nat>)
    ensures m.Keys == KeySet(t, ChannelAndSatisfaction)
    ensures forall k :: k in m ==> m[k] > 0 && m[k] == |Group(t, ChannelAndSatisfaction, k)|
  {
    GroupCounts(t, ChannelAndSatisfaction)
  }

  /** The rows of level `s` among the rows of channel `c` are the rows of the
      pair `(c, s)`. */
  lemma {:induction false} NestedGroupIsPairGroup(t: Table, c: string, s: string)
    ensures Group(Group(t, Channel, c), Satisfaction, s) == Group(t, ChannelAndSatisfaction, (c, s))
  {
    if t != [] {
      NestedGroupIsPairGroup(t[1..], c, s);
    }
  }

  /** The satisfaction-by-channel pivot: for each channel that occurs, the
      fraction of its rows at each satisfaction level (normalised counts within
      the channel). Levels that do not occur in a channel, the cells the pivot
      leaves empty, have no entry. */
  function SatisfactionByChannel(t: Table): (m: map<string, map<string, real>>)
    ensures m.Keys == KeySet(t, Channel)
    ensures forall c :: c in m ==> m[c].Keys == KeySet(Group(t, Channel, c), Satisfaction)
    ensures forall c :: c in m ==> forall s :: s in m[c] ==> 0.0 < m[c][s] <= 1.0
  {
    map c | c in KeySet(t, Channel) :: Shares(Group(t, Channel, c), Satisfaction)
  }

  /** Each pivot cell is the pair's count over the channel's count. */
  lemma PivotCellIsPairOverChannelCount(t: Table, c: string, s: string)
    requires c in SatisfactionByChannel(t) && s in SatisfactionByChannel(t)[c]
    ensures (c, s) in ChannelSatisfactionCounts(t) && c in ChannelCounts(t)
    ensures IsQuotient(SatisfactionByChannel(t)[c][s], ChannelSatisfactionCounts(t)[(c, s)] as real, ChannelCounts(t)[c] as real)
  {
    var g := Group(t, Channel, c);
    NestedGroupIsPairGroup(t, c, s);
    assert SatisfactionByChannel(t)[c] == Shares(g, Satisfaction);
  }

  /** Within each channel the satisfaction shares add up to 1. */
  lemma SatisfactionSharesSumToOne(t: Table, c: string, levels: seq<string>)
    requires c in SatisfactionByChannel(t)
    requires Enumerates(levels, SatisfactionByChannel(t)[c].Keys)
    ensures SumValues(SatisfactionByChannel(t)[c], levels) == 1.0
  {
    var g := Group(t, Channel, c);
    assert SatisfactionByChannel(t)[c] == Shares(g, Satisfaction);
    SharesSumToOne(g, Satisfaction, levels);
  }

  /** Everything the page shows that this model computes, for one state of
      the sidebar. */
  datatype Dashboard = Dashboard(
    summary: map<(string, string), SummaryRow>,
    averageSalesByCity: map<string, real>,
    channelCounts: map<string, nat>,
    satisfactionByChannel: map<string, map<string, real>>)

  /** A group that a view of the filtered frame shows comes from a row that
      is in the table and passes the selection. */
  lemma ShownKeyHasSelectedRow<K(!new)>(t: Table, sel: Selection, key: Record -> K, k: K)
    requires k in KeySet(Filter(t, sel), key)
    ensures exists r :: r in t && Keeps(r, sel) && key(r) == k
  {
    var g := Group(Filter(t, sel), key, k);
    assert g[0] in g;
  }

  /** One run of the script: filter, then build every view from the filtered
      frame. Every (gender, city) row and every city bar shown was selected in
      the sidebar, and the pie and the pivot show the same channels. */
  function Render(t: Table, sel: Selection): (d: Dashboard)
    ensures forall k :: k in d.summary ==> k.0 in sel.genders && k.1 in sel.cities
    ensures forall c :: c in d.averageSalesByCity ==> c in sel.cities
    ensures d.channelCounts.Keys == d.satisfactionByChannel.Keys
  {
    var f := Filter(t, sel);
    var d := Dashboard(SummaryByGenderCity(f), AverageSalesByCity(f), ChannelCounts(f), SatisfactionByChannel(f));
    assert forall k :: k in d.summary ==> k.0 in sel.genders && k.1 in sel.cities by {
      forall k | k in d.summary ensures k.0 in sel.genders && k.1 in sel.cities {
        ShownKeyHasSelectedRow(t, sel, GenderAndCity, k);
      }
    }
    assert forall c :: c in d.averageSalesByCity ==> c in sel.cities by {
      forall c | c in d.averageSalesByCity ensures c in sel.cities {
        ShownKeyHasSelectedRow(t, sel, City, c);
      }
    }
    d
  }

  /** The pie of one run covers every row the filter kept, once. */
  lemma RenderedPieCoversFilteredRows(t: Table, sel: Selection, channels: seq<string>)
    requires Enumerates(channels, Render(t, sel).channelCounts.Keys)
    ensures SumCounts(Render(t, sel).channelCounts, channels) == |Filter(t, sel)|
  {
    ChannelCountsSumToRowCount(Filter(t, sel), channels);
  }

  /** With every gender, every city and the slider at both ends, the page
      shows the views of the whole table. */
  lemma WidestSelectionRendersWholeTable(t: Table)
    requires t != []
    ensures WidestSelection(t).Some?
    ensures Render(t, WidestSelection(t).value)
      == Dashboard(SummaryByGenderCity(t), AverageSalesByCity(t), ChannelCounts(t), SatisfactionByChannel(t))
  {
    WidestSelectionKeepsTable(t);
  }

  /** An empty filtered frame renders every view empty: no group has rows,
      so no row is shown and nothing is divided by zero. */
  lemma EmptySelectionRendersEmptyViews(t: Table, sel: Selection)
    requires sel.genders == [] || sel.cities == [] || sel.ageLo > sel.ageHi
    ensures Render(t, sel) == Dashboard(map[], map[], map[], map[])
  {
    EmptySelectionGivesEmptyTable(t, sel);
    var e: Table := [];
    assert KeySet(e, GenderAndCity) == {};
    assert KeySet(e, City) == {};
    assert KeySet(e, Channel) == {};
  }

  /** Three rows; keep gender M, both cities and ages 25 to 50. Rows 1 and 3
      remain, and the mean net sales are 100 in NYC and 150 in LA. */
  lemma ThreeRowScenario()
    ensures
      var r1 := Record("M", "NYC", 30, 100.0, 5, 0.0, "", 0.0, 0.0, "", "", "");
      var r2 := Record("F", "NYC", 40, 200.0, 8, 0.0, "", 0.0, 0.0, "", "", "");
      var r3 := Record("M", "LA", 50, 150.0, 6, 0.0, "", 0.0, 0.0, "", "", "");
      var f := Filter([r1, r2, r3], Selection(["M"], ["NYC", "LA"], 25, 50));
      f == [r1, r3] && AverageSalesByCity(f) == map["NYC" := 100.0, "LA" := 150.0]
  {
    var r1 := Record("M", "NYC", 30, 100.0, 5, 0.0, "", 0.0, 0.0, "", "", "");
    var r2 := Record("F", "NYC", 40, 200.0, 8, 0.0, "", 0.0, 0.0, "", "", "");
    var r3 := Record("M", "LA", 50, 150.0, 6, 0.0, "", 0.0, 0.0, "", "", "");
    var sel := Selection(["M"], ["NYC", "LA"], 25, 50);
    assert [r1, r2, r3][1..] == [r2, r3];
    assert [r2, r3][1..] == [r3];
    assert [r3][1..] == [];
    assert Filter([r3], sel) == [r3];
    assert Filter([r2, r3], sel) == [r3];
    assert Filter([r1, r2, r3], sel) == [r1, r3];
    ScenarioAverages(r1, r3);
  }

  lemma ScenarioAverages(r1: Record, r3: Record)
    requires r1.city == "NYC" && r1.netSales == 100.0
    requires r3.city == "LA" && r3.netSales == 150.0
    ensures AverageSalesByCity([r1, r3]) == map["NYC" := 100.0, "LA" := 150.0]
  {
    var f := [r1, r3];
    assert f[1..] == [r3] && [r3][1..] == [];
    assert Group(f, City, "NYC") == [r1];
    assert Group(f, City, "LA") == [r3];
    assert Sum([r1], NetSales) == 100.0;
    assert Sum([r3], NetSales) == 150.0;
    var m := AverageSalesByCity(f);
    forall c ensures c in m <==> c == "NYC" || c == "LA" {
      if c != "NYC" && c != "LA" {
        assert Group(f, City, c) == [];
      }
    }
  }
}
