/**
 * The choices offered by the two sidebar select boxes: the distinct values
 * of a column, in the order in which they first occur.
 */
module Options {
  import opened Records

  predicate NoDuplicates<T(==)>(xs: seq<T>) {
    forall i, j :: 0 <= i < j < |xs| ==> xs[i] != xs[j]
  }

  /** The position of the first occurrence of x in xs. */
  function FirstIndex<T(==)>(xs: seq<T>, x: T): (i: nat)
    requires x in xs
    ensures i < |xs| && xs[i] == x
    ensures forall j :: 0 <= j < i ==> xs[j] != x
  {
    if xs[0] == x then 0 else 1 + FirstIndex(xs[1..], x)
  }

  /** The distinct values of xs, each kept where it first occurs. */
  function Unique<T(==,!new)>(xs: seq<T>): (r: seq<T>)
    ensures NoDuplicates(r)
    ensures forall x :: x in r <==> x in xs
    ensures |r| <= |xs|
  {
    if xs == [] then []
    else
      var u := Unique(xs[..|xs| - 1]);
      if xs[|xs| - 1] in u then u else u + [xs[|xs| - 1]]
  }

  /** A first occurrence inside a prefix is the first occurrence overall. */
  lemma FirstIndexInPrefix<T>(xs: seq<T>, n: nat, x: T)
    requires n <= |xs| && x in xs[..n]
    ensures FirstIndex(xs, x) == FirstIndex(xs[..n], x)
  {
    var i, j := FirstIndex(xs[..n], x), FirstIndex(xs, x);
    assert xs[..n][i] == xs[i];
    assert j <= i;
    assert xs[..n][j] == xs[j];
  }

  /** The options appear in first-seen order: an option listed earlier
      occurs for the first time earlier in the column. */
  lemma {:induction false} UniqueFirstSeenOrder<T(!new)>(xs: seq<T>)
    ensures forall i, j :: 0 <= i < j < |Unique(xs)| ==>
      FirstIndex(xs, Unique(xs)[i]) < FirstIndex(xs, Unique(xs)[j])
  {
    if xs != [] {
      var n := |xs| - 1;
      var init := xs[..n];
      var u := Unique(init);
      UniqueFirstSeenOrder(init);
      forall y | y in u
        ensures FirstIndex(xs, y) == FirstIndex(init, y) < n
      {
        FirstIndexInPrefix(xs, n, y);
      }
      if xs[n] !in u {
        assert xs[n] !in init;
        assert FirstIndex(xs, xs[n]) == n;
        var r := Unique(xs);
        assert r == u + [xs[n]];
        forall i, j | 0 <= i < j < |r|
          ensures FirstIndex(xs, r[i]) < FirstIndex(xs, r[j])
        {
          assert r[i] == u[i] && r[i] in u;
          if j < |u| {
            assert r[j] == u[j] && r[j] in u;
          }
        }
      }
    }
  }

  /** The season column, one cell per row. */
  function SeasonColumn(rows: seq<Record>): (c: seq<Category>)
    ensures |c| == |rows| && forall i :: 0 <= i < |rows| ==> c[i] == rows[i].season
  {
    seq(|rows|, i requires 0 <= i < |rows| => rows[i].season)
  }

  /** The weather column, one cell per row. */
  function WeatherColumn(rows: seq<Record>): (c: seq<Category>)
    ensures |c| == |rows| && forall i :: 0 <= i < |rows| ==> c[i] == rows[i].weathersit
  {
    seq(|rows|, i requires 0 <= i < |rows| => rows[i].weathersit)
  }

  /** The choices of the season select box. */
  function SeasonOptions(rows: seq<Record>): (opts: seq<Category>)
    ensures NoDuplicates(opts)
    ensures forall c :: c in opts <==> exists i :: 0 <= i < |rows| && rows[i].season == c
    ensures forall i :: 0 <= i < |opts| ==> opts[i] in SeasonColumn(rows)
    ensures forall i, j :: 0 <= i < j < |opts| ==>
      FirstIndex(SeasonColumn(rows), opts[i]) < FirstIndex(SeasonColumn(rows), opts[j])
  {
    var col := SeasonColumn(rows);
    assert forall c :: c in col <==> exists i :: 0 <= i < |rows| && rows[i].season == c by {
      forall c | c in col ensures exists i :: 0 <= i < |rows| && rows[i].season == c {
        var i :| 0 <= i < |col| && col[i] == c;
      }
    }
    UniqueFirstSeenOrder(col);
    Unique(col)
  }

  /** The choices of the weather select box. */
  function WeatherOptions(rows: seq<Record>): (opts: seq<Category>)
    ensures NoDuplicates(opts)
    ensures forall c :: c in opts <==> exists i :: 0 <= i < |rows| && rows[i].weathersit == c
    ensures forall i :: 0 <= i < |opts| ==> opts[i] in WeatherColumn(rows)
    ensures forall i, j :: 0 <= i < j < |opts| ==>
      FirstIndex(WeatherColumn(rows), opts[i]) < FirstIndex(WeatherColumn(rows), opts[j])
  {
    var col := WeatherColumn(rows);
    assert forall c :: c in col <==> exists i :: 0 <= i < |rows| && rows[i].weathersit == c by {
      forall c | c in col ensures exists i :: 0 <= i < |rows| && rows[i].weathersit == c {
        var i :| 0 <= i < |col| && col[i] == c;
      }
    }
    UniqueFirstSeenOrder(col);
    Unique(col)
  }

  /** On a relabelled table every season option is a season name or the
      missing value. */
  lemma RelabelledSeasonOptions(raw: seq<Record>)
    ensures forall c :: c in SeasonOptions(RelabelRows(raw)) ==>
      c == Missing || (c.Name? && c.text in SeasonMapping.Values)
  {
    var rows := RelabelRows(raw);
    forall c | c in SeasonOptions(rows)
      ensures c == Missing || (c.Name? && c.text in SeasonMapping.Values)
    {
      var i :| 0 <= i < |rows| && rows[i].season == c;
      assert rows[i] == RelabelRecord(raw[i]);
      if c.Name? {
        assert SeasonMapping[raw[i].season.code] == c.text;
      }
    }
  }

  /** On a relabelled table every weather option is a weather name or the
      missing value. */
  lemma RelabelledWeatherOptions(raw: seq<Record>)
    ensures forall c :: c in WeatherOptions(RelabelRows(raw)) ==>
      c == Missing || (c.Name? && c.text in WeatherMapping.Values)
  {
    var rows := RelabelRows(raw);
    forall c | c in WeatherOptions(rows)
      ensures c == Missing || (c.Name? && c.text in WeatherMapping.Values)
    {
      var i :| 0 <= i < |rows| && rows[i].weathersit == c;
      assert rows[i] == RelabelRecord(raw[i]);
      if c.Name? {
        assert WeatherMapping[raw[i].weathersit.code] == c.text;
      }
    }
  }
}
