/**
 * The rows of the bike-rental table and the relabelling of its two
 * categorical columns (season and weather) from numeric codes to the
 * Indonesian display names of the dashboard.
 */
module Records {

  datatype Option<+T> = None | Some(value: T)

  /** One cell of a categorical column: a raw numeric code as read from the
      file, a display name after relabelling, or the missing value (NaN) that
      a lookup in the label table produces for a key it does not hold. */
  datatype Category = Code(code: int) | Name(text: string) | Missing

  /** One observation of the hourly dataset (the columns the dashboard uses). */
  datatype Record = Record(
    season: Category,
    weathersit: Category,
    hr: int,
    cnt: nat,
    casual: nat,
    registered: nat)

  const SeasonMapping: map<int, string> :=
    map[1 := "Musim Semi", 2 := "Musim Panas", 3 := "Musim Gugur", 4 := "Musim Dingin"]

  const WeatherMapping: map<int, string> :=
    map[1 := "Cerah", 2 := "Berawan", 3 := "Hujan Ringan", 4 := "Hujan Lebat"]

  /** Element-wise lookup of a cell in a label table, as a dictionary-based
      column map does: a code that is a key gets its name, anything else
      (an unknown code, a name, a missing value) becomes missing. */
  function MapCell(table: map<int, string>, c: Category): (r: Category)
    ensures r.Name? <==> c.Code? && c.code in table
    ensures r.Name? ==> r.text == table[c.code]
    ensures !r.Code?
  {
    match c
    case Code(k) => if k in table then Name(table[k]) else Missing
    case _ => Missing
  }

  /** The season column relabelled, every other column untouched. */
  function RelabelSeason(r: Record): (r': Record)
    ensures r'.season == MapCell(SeasonMapping, r.season)
    ensures r'.weathersit == r.weathersit && r'.hr == r.hr && r'.cnt == r.cnt
    ensures r'.casual == r.casual && r'.registered == r.registered
  {
    r.(season := MapCell(SeasonMapping, r.season))
  }

  /** The weather column relabelled, every other column untouched. */
  function RelabelWeather(r: Record): (r': Record)
    ensures r'.weathersit == MapCell(WeatherMapping, r.weathersit)
    ensures r'.season == r.season && r'.hr == r.hr && r'.cnt == r.cnt
    ensures r'.casual == r.casual && r'.registered == r.registered
  {
    r.(weathersit := MapCell(WeatherMapping, r.weathersit))
  }

  /** A record after both columns have been relabelled. */
  function RelabelRecord(r: Record): (r': Record)
    ensures r'.season == MapCell(SeasonMapping, r.season)
    ensures r'.weathersit == MapCell(WeatherMapping, r.weathersit)
    ensures r'.season.Name? <==> r.season.Code? && 1 <= r.season.code <= 4
    ensures r'.weathersit.Name? <==> r.weathersit.Code? && 1 <= r.weathersit.code <= 4
    ensures r'.hr == r.hr && r'.cnt == r.cnt && r'.casual == r.casual && r'.registered == r.registered
  {
    RelabelWeather(RelabelSeason(r))
  }

  /** The whole table after relabelling, row by row. */
  function RelabelRows(rows: seq<Record>): (r: seq<Record>)
    ensures |r| == |rows|
    ensures forall i :: 0 <= i < |rows| ==> r[i] == RelabelRecord(rows[i])
  {
    seq(|rows|, i requires 0 <= i < |rows| => RelabelRecord(rows[i]))
  }

  /** The four season codes get the four season names, in code order. */
  lemma SeasonLabels()
    ensures MapCell(SeasonMapping, Code(1)) == Name("Musim Semi")
    ensures MapCell(SeasonMapping, Code(2)) == Name("Musim Panas")
    ensures MapCell(SeasonMapping, Code(3)) == Name("Musim Gugur")
    ensures MapCell(SeasonMapping, Code(4)) == Name("Musim Dingin")
    ensures forall k :: (k < 1 || k > 4) ==> MapCell(SeasonMapping, Code(k)) == Missing
  {
  }

  /** The four weather codes get the four weather names, in code order. */
  lemma WeatherLabels()
    ensures MapCell(WeatherMapping, Code(1)) == Name("Cerah")
    ensures MapCell(WeatherMapping, Code(2)) == Name("Berawan")
    ensures MapCell(WeatherMapping, Code(3)) == Name("Hujan Ringan")
    ensures MapCell(WeatherMapping, Code(4)) == Name("Hujan Lebat")
    ensures forall k :: (k < 1 || k > 4) ==> MapCell(WeatherMapping, Code(k)) == Missing
  {
  }

  /** Distinct codes get distinct names, so the relabelled column still
      tells the categories apart. */
  lemma LabelsInjective(k1: int, k2: int)
    ensures MapCell(SeasonMapping, Code(k1)).Name? && MapCell(SeasonMapping, Code(k1)) == MapCell(SeasonMapping, Code(k2)) ==> k1 == k2
    ensures MapCell(WeatherMapping, Code(k1)).Name? && MapCell(WeatherMapping, Code(k1)) == MapCell(WeatherMapping, Code(k2)) ==> k1 == k2
  {
    SeasonLabels();
    WeatherLabels();
  }

  /** The lookup only knows codes: relabelling an already relabelled table
      turns every season and weather cell into a missing value. The
      relabelling is therefore not idempotent, and the view is defined on a
      table relabelled exactly once (`Stats.RunDashboard` relabels the freshly
      loaded table once, before anything reads the two columns). */
  lemma RelabelTwiceLosesLabels(rows: seq<Record>)
    ensures forall i :: 0 <= i < |rows| ==>
      RelabelRows(RelabelRows(rows))[i].season == Missing &&
      RelabelRows(RelabelRows(rows))[i].weathersit == Missing
  {
  }

  /** Relabels the season column of the table in place. */
  method RelabelSeasonColumn(df: array<Record>)
    modifies df
    ensures forall i :: 0 <= i < df.Length ==> df[i] == RelabelSeason(old(df[i]))
  {
    var i := 0;
    while i < df.Length
      invariant 0 <= i <= df.Length
      invariant forall j :: 0 <= j < i ==> df[j] == RelabelSeason(old(df[j]))
      invariant forall j :: i <= j < df.Length ==> df[j] == old(df[j])
    {
      df[i] := RelabelSeason(df[i]);
      i := i + 1;
    }
  }

  /** Relabels the weather column of the table in place. */
  method RelabelWeatherColumn(df: array<Record>)
    modifies df
    ensures forall i :: 0 <= i < df.Length ==> df[i] == RelabelWeather(old(df[i]))
  {
    var i := 0;
    while i < df.Length
      invariant 0 <= i <= df.Length
      invariant forall j :: 0 <= j < i ==> df[j] == RelabelWeather(old(df[j]))
      invariant forall j :: i <= j < df.Length ==> df[j] == old(df[j])
    {
      df[i] := RelabelWeather(df[i]);
      i := i + 1;
    }
  }

  /** Replaces the season column, then the weather column, of the loaded
      table; afterwards the table is the relabelled copy of what it was. */
  method Relabel(df: array<Record>)
    modifies df
    ensures df[..] == RelabelRows(old(df[..]))
  {
    RelabelSeasonColumn(df);
    RelabelWeatherColumn(df);
  }
}
