/**
 * The numbers the dashboard shows for one choice of season and weather:
 * the filtered rows, the total and average rental count, the three-bar
 * series with its y-axis bound, and the peak hour.
 */
module Stats {
  import opened Records
  import opened Options

  // ---------------------------------------------------------------------
  // Filtering

  /** Element-wise equality of a column cell with the chosen value, as a
      boolean mask computes it: a missing value equals nothing, not even the
      missing value. */
  function Same(cell: Category, chosen: Category): (eq: bool)
    ensures eq ==> cell == chosen
    ensures chosen.Missing? ==> !eq
    ensures cell == chosen && !chosen.Missing? ==> eq
  {
    cell == chosen && !cell.Missing?
  }

  /** Both masks of the filter hold for the row. */
  function Matches(r: Record, season: Category, weather: Category): (m: bool)
    ensures m ==> r.season == season && r.weathersit == weather
    ensures season.Missing? || weather.Missing? ==> !m
    ensures r.season == season && r.weathersit == weather && !season.Missing? && !weather.Missing? ==> m
  {
    Same(r.season, season) && Same(r.weathersit, weather)
  }

  /** a can be obtained from b by deleting elements (matched greedily). */
  predicate IsSubsequence<T(==)>(a: seq<T>, b: seq<T>)
    decreases |b|
  {
    if a == [] then true
    else if b == [] then false
    else if a[0] == b[0] then IsSubsequence(a[1..], b[1..])
    else IsSubsequence(a, b[1..])
  }

  /** The rows whose season and weather both equal the chosen values, in
      table order. */
  function Filter(rows: seq<Record>, season: Category, weather: Category): (r: seq<Record>)
    ensures forall x :: x in r ==> Matches(x, season, weather)
    ensures forall x :: x in rows && Matches(x, season, weather) ==> x in r
    ensures IsSubsequence(r, rows)
  {
    if rows == [] then []
    else if Matches(rows[0], season, weather) then [rows[0]] + Filter(rows[1..], season, weather)
    else Filter(rows[1..], season, weather)
  }

  /** A subsequence is never longer than the sequence it is taken from. */
  lemma {:induction false} SubsequenceLength<T>(a: seq<T>, b: seq<T>)
    requires IsSubsequence(a, b)
    ensures |a| <= |b|
    decreases |b|
  {
    if a != [] {
      if a[0] == b[0] {
        SubsequenceLength(a[1..], b[1..]);
      } else {
        SubsequenceLength(a, b[1..]);
      }
    }
  }

  /** The filtered result is never longer than the table. */
  lemma FilterLength(rows: seq<Record>, season: Category, weather: Category)
    ensures |Filter(rows, season, weather)| <= |rows|
  {
    SubsequenceLength(Filter(rows, season, weather), rows);
  }

  /** Filtering keeps every matching row as often as the table holds it and
      drops every other row. */
  lemma {:induction false} FilterMultiplicity(rows: seq<Record>, season: Category, weather: Category)
    ensures forall x ::
              multiset(Filter(rows, season, weather))[x] == if Matches(x, season, weather) then multiset(rows)[x] else 0
  {
    if rows != [] {
      FilterMultiplicity(rows[1..], season, weather);
      assert rows == [rows[0]] + rows[1..];
    }
  }

  /** Choosing the missing value for either select box yields no rows. */
  lemma {:induction false} FilterOnMissingIsEmpty(rows: seq<Record>, season: Category, weather: Category)
    ensures Filter(rows, Missing, weather) == []
    ensures Filter(rows, season, Missing) == []
  {
    var a := Filter(rows, Missing, weather);
    assert forall i :: 0 <= i < |a| ==> a[i] in a;
    var b := Filter(rows, season, Missing);
    assert forall i :: 0 <= i < |b| ==> b[i] in b;
  }

  /** Every row of a non-empty result carries a season and a weather value
      that the select boxes offer. */
  lemma FilteredValuesAreOptions(rows: seq<Record>, season: Category, weather: Category)
    requires Filter(rows, season, weather) != []
    ensures season in SeasonOptions(rows) && weather in WeatherOptions(rows)
  {
    var x := Filter(rows, season, weather)[0];
    assert x in Filter(rows, season, weather);
    SubsequenceMembers(Filter(rows, season, weather), rows);
    assert x in rows;
    var i :| 0 <= i < |rows| && rows[i] == x;
    assert rows[i].season == season && rows[i].weathersit == weather;
  }

  /** Every element of a subsequence is an element of the whole. */
  lemma {:induction false} SubsequenceMembers<T>(a: seq<T>, b: seq<T>)
    requires IsSubsequence(a, b)
    ensures forall x :: x in a ==> x in b
    decreases |b|
  {
    if a != [] {
      if a[0] == b[0] {
        SubsequenceMembers(a[1..], b[1..]);
        assert a == [a[0]] + a[1..];
      } else {
        SubsequenceMembers(a, b[1..]);
      }
    }
  }

  /** Because the label tables are one-to-one, filtering the relabelled
      table by two names selects exactly the rows whose raw codes are the
      codes of those names. */
  lemma {:induction false} FilterByNameIsFilterByCode(raw: seq<Record>, s: int, w: int)
    requires s in SeasonMapping && w in WeatherMapping
    ensures Filter(RelabelRows(raw), Name(SeasonMapping[s]), Name(WeatherMapping[w])) ==
      RelabelRows(Filter(raw, Code(s), Code(w)))
  {
    var sn, wn := Name(SeasonMapping[s]), Name(WeatherMapping[w]);
    if raw != [] {
      FilterByNameIsFilterByCode(raw[1..], s, w);
      var r0 := raw[0];
      LabelsInjective(s, if r0.season.Code? then r0.season.code else s);
      LabelsInjective(w, if r0.weathersit.Code? then r0.weathersit.code else w);
      assert RelabelRows(raw)[1..] == RelabelRows(raw[1..]);
      assert Matches(RelabelRecord(r0), sn, wn) <==> Matches(r0, Code(s), Code(w));
      if Matches(r0, Code(s), Code(w)) {
        assert RelabelRows([r0] + Filter(raw[1..], Code(s), Code(w))) ==
          [RelabelRecord(r0)] + RelabelRows(Filter(raw[1..], Code(s), Code(w)));
      }
    }
  }

  // ---------------------------------------------------------------------
  // Column sums

  /** The three numeric columns summed by the dashboard. */
  datatype Column = Casual | Registered | Cnt

  function Value(r: Record, col: Column): nat {
    match col
    case Casual => r.casual
    case Registered => r.registered
    case Cnt => r.cnt
  }

  /** The sum of a column over the rows (0 for no rows): at least every
      single value, and 0 exactly when every value is 0. */
  function Sum(rows: seq<Record>, col: Column): (s: nat)
    ensures forall i :: 0 <= i < |rows| ==> Value(rows[i], col) <= s
    ensures s == 0 <==> forall i :: 0 <= i < |rows| ==> Value(rows[i], col) == 0
  {
    if rows == [] then 0 else Value(rows[0], col) + Sum(rows[1..], col)
  }

  /** Relabelling changes no numeric column, so no column sum. */
  lemma {:induction false} RelabelKeepsSums(rows: seq<Record>, col: Column)
    ensures Sum(RelabelRows(rows), col) == Sum(rows, col)
  {
    if rows != [] {
      RelabelKeepsSums(rows[1..], col);
      assert RelabelRows(rows)[1..] == RelabelRows(rows[1..]);
    }
  }

  /** Dropping rows never increases a column sum. */
  lemma {:induction false} SubsequenceSum(a: seq<Record>, b: seq<Record>, col: Column)
    requires IsSubsequence(a, b)
    ensures Sum(a, col) <= Sum(b, col)
    decreases |b|
  {
    if a == [] {
    } else if a[0] == b[0] {
      SubsequenceSum(a[1..], b[1..], col);
    } else {
      SubsequenceSum(a, b[1..], col);
    }
  }

  /** The reference sum: the rental count of every matching row, read off
      the table row by row. */
  function SumWhere(rows: seq<Record>, season: Category, weather: Category): nat {
    if rows == [] then 0
    else (if Matches(rows[0], season, weather) then rows[0].cnt else 0) + SumWhere(rows[1..], season, weather)
  }

  /** The "total rentals" metric: the rental count summed over the
      filtered rows. */
  function Total(rows: seq<Record>, season: Category, weather: Category): (t: nat)
    ensures Filter(rows, season, weather) == [] ==> t == 0
  {
    Sum(Filter(rows, season, weather), Cnt)
  }

  /** The total over the filtered table is the sum over the matching rows of
      the whole table, and is at most the total of the whole table. */
  lemma {:induction false} TotalIsSumOfMatchingRows(rows: seq<Record>, season: Category, weather: Category)
    ensures Total(rows, season, weather) == SumWhere(rows, season, weather)
    ensures Total(rows, season, weather) <= Sum(rows, Cnt)
  {
    if rows != [] {
      TotalIsSumOfMatchingRows(rows[1..], season, weather);
    }
    SubsequenceSum(Filter(rows, season, weather), rows, Cnt);
  }

  // ---------------------------------------------------------------------
  // Bar series and y-axis bound

  /** One bar of the chart: the column it sums and its height. */
  datatype Bar = Bar(column: Column, height: nat)

  /** The three column sums of the filtered rows, as the series of the bar
      chart. */
  function BarData(rows: seq<Record>): (bars: seq<Bar>)
    ensures |bars| == 3
    ensures bars[0].column == Casual && bars[1].column == Registered && bars[2].column == Cnt
    ensures forall i :: 0 <= i < 3 ==> bars[i].height == Sum(rows, bars[i].column)
  {
    [Bar(Casual, Sum(rows, Casual)), Bar(Registered, Sum(rows, Registered)), Bar(Cnt, Sum(rows, Cnt))]
  }

  function Heights(bars: seq<Bar>): (hs: seq<nat>)
    ensures |hs| == |bars| && forall i :: 0 <= i < |bars| ==> hs[i] == bars[i].height
  {
    seq(|bars|, i requires 0 <= i < |bars| => bars[i].height)
  }

  /** The largest value of a series, or missing for an empty series. */
  function MaxOf(xs: seq<nat>): (m: Option<nat>)
    ensures m.None? <==> xs == []
    ensures m.Some? ==> m.value in xs && forall i :: 0 <= i < |xs| ==> xs[i] <= m.value
  {
    if xs == [] then None
    else match MaxOf(xs[1..])
      case None => Some(xs[0])
      case Some(rest) => Some(if xs[0] >= rest then xs[0] else rest)
  }

  /** The integer stand-in for truncating m * 1.1: ten percent of headroom,
      rounded down. */
  function Scaled(m: nat): (b: nat)
    ensures m <= b
    ensures 10 * b <= 11 * m < 10 * b + 10
  {
    (11 * m) / 10
  }

  /** The missing-value guard on the maximum: 0 for a missing maximum,
      the scaled maximum otherwise. */
  function ScaleOrZero(m: Option<nat>): (b: nat)
    ensures m.None? ==> b == 0
    ensures m.Some? ==> m.value <= b && 10 * b <= 11 * m.value < 10 * b + 10
  {
    match m
    case None => 0
    case Some(v) => Scaled(v)
  }

  /** The upper limit of the bar chart's y axis: the largest bar, scaled. */
  function YBound(rows: seq<Record>): (b: nat)
    ensures Sum(rows, Casual) <= b && Sum(rows, Registered) <= b && Sum(rows, Cnt) <= b
    ensures b == Scaled(Max3(Sum(rows, Casual), Sum(rows, Registered), Sum(rows, Cnt)))
  {
    var hs := Heights(BarData(rows));
    assert hs == [Sum(rows, Casual), Sum(rows, Registered), Sum(rows, Cnt)];
    ScaleOrZero(MaxOf(hs))
  }

  function Max3(a: nat, b: nat, c: nat): nat {
    if a >= b && a >= c then a else if b >= c then b else c
  }

  /** The y bound is the scaled maximum of the three column sums; no bar is
      taller than it; it is 0 for no rows, and it is 0 exactly when all
      three sums are 0. */
  lemma YBoundSpec(rows: seq<Record>)
    ensures YBound(rows) == Scaled(Max3(Sum(rows, Casual), Sum(rows, Registered), Sum(rows, Cnt)))
    ensures forall i :: 0 <= i < |BarData(rows)| ==> BarData(rows)[i].height <= YBound(rows)
    ensures rows == [] ==> YBound(rows) == 0
    ensures YBound(rows) == 0 <==> Sum(rows, Casual) == 0 && Sum(rows, Registered) == 0 && Sum(rows, Cnt) == 0
  {
  }

  /** Where every row's count is its casual plus registered rentals (the
      dataset's convention, which the dashboard does not check), the count
      bar is the sum of the other two and sets the y bound. */
  lemma {:induction false} ConsistentCounts(rows: seq<Record>)
    requires forall i :: 0 <= i < |rows| ==> rows[i].cnt == rows[i].casual + rows[i].registered
    ensures Sum(rows, Cnt) == Sum(rows, Casual) + Sum(rows, Registered)
    ensures YBound(rows) == Scaled(Sum(rows, Cnt))
  {
    if rows != [] {
      ConsistentCounts(rows[1..]);
    }
    YBoundSpec(rows);
  }

  // ---------------------------------------------------------------------
  // Peak hour

  /** k is the first position holding the largest rental count. */
  predicate IsFirstMax(rows: seq<Record>, k: int) {
    && 0 <= k < |rows|
    && (forall j :: 0 <= j < |rows| ==> rows[j].cnt <= rows[k].cnt)
    && (forall j :: 0 <= j < k ==> rows[j].cnt < rows[k].cnt)
  }

  /** The position of the first row with the largest rental count. */
  function IdxMax(rows: seq<Record>): (k: nat)
    requires rows != []
    ensures IsFirstMax(rows, k)
  {
    if |rows| == 1 then 0
    else
      var k := IdxMax(rows[1..]);
      if rows[0].cnt >= rows[k + 1].cnt then 0 else k + 1
  }

  function CntColumn(rows: seq<Record>): (c: seq<nat>)
    ensures |c| == |rows| && forall i :: 0 <= i < |rows| ==> c[i] == rows[i].cnt
  {
    seq(|rows|, i requires 0 <= i < |rows| => rows[i].cnt)
  }

  /** The hour and count reported in the peak sentence. */
  datatype Peak = Peak(hour: int, count: nat)

  /** The hour of the first row with the largest count, and the largest
      count; missing (the lookup fails) when there are no rows. */
  function PeakOf(rows: seq<Record>): (p: Option<Peak>)
    ensures p.None? <==> rows == []
    ensures p.Some? ==> forall k :: IsFirstMax(rows, k) ==> p.value == Peak(rows[k].hr, rows[k].cnt)
    ensures p.Some? ==> forall j :: 0 <= j < |rows| ==> rows[j].cnt <= p.value.count
  {
    if rows == [] then None
    else
      var i := IdxMax(rows);
      assert forall k :: IsFirstMax(rows, k) ==> k == i by {
        forall k | IsFirstMax(rows, k) ensures k == i {
          FirstMaxUnique(rows, k, i);
        }
      }
      match MaxOf(CntColumn(rows))
      case None => None
      case Some(c) => Some(Peak(rows[i].hr, c))
  }

  /** At most one position is the first maximum. */
  lemma FirstMaxUnique(rows: seq<Record>, i: int, j: int)
    requires IsFirstMax(rows, i) && IsFirstMax(rows, j)
    ensures i == j
  {
    assert rows[i].cnt == rows[j].cnt;
  }

  /** Counts 50, 120, 120 at hours 7, 8, 9: the peak is hour 8 with 120. */
  lemma PeakTieTakesFirst()
    ensures PeakOf([Record(Missing, Missing, 7, 50, 0, 50),
                    Record(Missing, Missing, 8, 120, 0, 120),
                    Record(Missing, Missing, 9, 120, 0, 120)]) == Some(Peak(8, 120))
  {
    var rows := [Record(Missing, Missing, 7, 50, 0, 50),
                 Record(Missing, Missing, 8, 120, 0, 120),
                 Record(Missing, Missing, 9, 120, 0, 120)];
    assert IsFirstMax(rows, 1);
  }

  // ---------------------------------------------------------------------
  // Average

  /** The "average rentals" metric before rounding: the total over the
      number of rows, missing (NaN) for no rows. */
  function Average(rows: seq<Record>): (a: Option<real>)
    ensures a.None? <==> rows == []
    ensures a.Some? ==> a.value * (|rows| as real) == Sum(rows, Cnt) as real
  {
    if rows == [] then None else Some((Sum(rows, Cnt) as real) / (|rows| as real))
  }

  lemma {:induction false} SumBelow(rows: seq<Record>, bound: nat)
    requires forall j :: 0 <= j < |rows| ==> rows[j].cnt <= bound
    ensures Sum(rows, Cnt) <= |rows| * bound
  {
    if rows != [] {
      var rest := rows[1..];
      SumBelow(rest, bound);
      assert Sum(rows, Cnt) == rows[0].cnt + Sum(rest, Cnt);
      assert |rows| * bound == bound + |rest| * bound;
    }
  }

  /** A quotient by a positive number is bounded by the bound of the
      dividend divided by it. */
  lemma QuotientBelow(s: nat, n: nat, c: nat)
    requires n > 0 && s <= n * c
    ensures 0.0 <= (s as real) / (n as real) <= c as real
  {
    var q := (s as real) / (n as real);
    assert q * (n as real) == s as real;
    assert (n * c) as real == (n as real) * (c as real);
    assert q > c as real ==> q * (n as real) > (c as real) * (n as real);
  }

  /** The average lies between 0 and the peak count. */
  lemma AverageAtMostPeak(rows: seq<Record>)
    requires rows != []
    ensures 0.0 <= Average(rows).value <= PeakOf(rows).value.count as real
  {
    var c := PeakOf(rows).value.count;
    SumBelow(rows, c);
    QuotientBelow(Sum(rows, Cnt), |rows|, c);
  }

  // ---------------------------------------------------------------------
  // The whole view

  /** Everything the dashboard displays for one choice of season and
      weather on the relabelled table. */
  datatype View = View(
    seasonOptions: seq<Category>,
    weatherOptions: seq<Category>,
    total: nat,
    average: Option<real>,
    bars: seq<Bar>,
    yBound: nat,
    peak: Option<Peak>)

  function Dashboard(df: seq<Record>, season: Category, weather: Category): (v: View)
    ensures |v.bars| == 3 && v.bars[2].height == v.total
    ensures forall i :: 0 <= i < |v.bars| ==> v.bars[i].height <= v.yBound
    ensures v.total <= Sum(df, Cnt)
    ensures v.peak.None? <==> forall i :: 0 <= i < |df| ==> !Matches(df[i], season, weather)
    ensures v.average.None? <==> v.peak.None?
  {
    var filtered := Filter(df, season, weather);
    YBoundSpec(filtered);
    TotalIsSumOfMatchingRows(df, season, weather);
    assert filtered == [] <==> forall i :: 0 <= i < |df| ==> !Matches(df[i], season, weather) by {
      if filtered != [] {
        SubsequenceMembers(filtered, df);
        assert filtered[0] in df;
      }
    }
    View(SeasonOptions(df), WeatherOptions(df), Total(df, season, weather), Average(filtered),
         BarData(filtered), YBound(filtered), PeakOf(filtered))
  }

  /** The script: relabel the loaded table in place, then compute the view
      for the chosen season and weather. */
  method RunDashboard(df: array<Record>, season: Category, weather: Category) returns (v: View)
    modifies df
    ensures df[..] == RelabelRows(old(df[..]))
    ensures v == Dashboard(df[..], season, weather)
  {
    Relabel(df);
    v := Dashboard(df[..], season, weather);
  }
}
