/**
  The table transformations of `LoadData`: the national state-level loader,
  the state slice, the per-state city loader and the city slice.  The rows the
  loaders fetch over HTTP are their input here; the CSV they may write is
  represented by the path they would write it to.
 */
module LoadData {
  import opened Frames
  import opened Calendar

  datatype Option<T> = None | Some(value: T)

  /** Default `min_confirmed` of the national loader. */
  const DEFAULT_MIN_CONFIRMED := 5

  /** A row of the state-level feed, restricted to the columns the loader reads. */
  datatype StateFeedRow = StateFeedRow(
    date: Date, state: string, newCases: int, totalCases: int, deaths: int,
    recovered: Option<int>)

  /** A state-level row once missing `recovered` values are filled and columns renamed. */
  datatype StateRow = StateRow(
    date: Date, state: string, infected: int, confirmed: int, dead: int, recovered: int)

  /** A row of the national table. */
  datatype NationalRecord = NationalRecord(
    date: Date, state: string, infected: int, confirmed: int, dead: int, recovered: int,
    day: int)

  /** A row of a state slice: a national row without its `state` column. */
  datatype StateRecord = StateRecord(
    date: Date, infected: int, confirmed: int, dead: int, recovered: int, day: int)

  /** A row of the city-level feed, restricted to the columns the loader reads. */
  datatype CityFeedRow = CityFeedRow(
    date: Date, state: string, city: string, totalCases: int, deaths: int)

  /** A row of a state's city table; the fields are in the table's column order. */
  datatype CityRecord = CityRecord(
    date: Date, state: string, city: string, dead: int, confirmed: int, day: int)

  /** A row of a city slice: a city-table row without `state` and `city`. */
  datatype CityDayRecord = CityDayRecord(date: Date, dead: int, confirmed: int, day: int)

  /**
    What a loader call ends in: the table it returns, with the path it writes
    the table to when asked to store it, or the `IndexError` that `iloc[-1]`
    raises when asked to store an empty table.
   */
  datatype Outcome<R> = Returned(frame: Frame<R>, written: Option<string>) | IndexError

  // ---------------------------------------------------------------------------
  // Row-level steps shared by the loaders and their reference tables

  /** `fillna(value={"recovered": 0})` followed by the column rename. */
  function FillAndRename(r: StateFeedRow): (filled: StateRow)
    ensures filled.confirmed == r.totalCases && filled.infected == r.newCases && filled.dead == r.deaths
    ensures filled.date == r.date && filled.state == r.state
    ensures r.recovered.None? ==> filled.recovered == 0
    ensures r.recovered.Some? ==> filled.recovered == r.recovered.value
    ensures (r.recovered.Some? ==> r.recovered.value >= 0) ==> filled.recovered >= 0
  {
    StateRow(r.date, r.state, r.newCases, r.totalCases, r.deaths,
             if r.recovered.Some? then r.recovered.value else 0)
  }

  /** The `day` column: whole days since `first`. */
  function WithDay(r: StateRow, first: Date): NationalRecord
  {
    NationalRecord(r.date, r.state, r.infected, r.confirmed, r.dead, r.recovered,
                   DaysBetween(r.date, first))
  }

  /** The `day` column, the rename and the column order date, state, city, dead, confirmed, day. */
  function CityWithDay(r: CityFeedRow, first: Date): CityRecord
  {
    CityRecord(r.date, r.state, r.city, r.deaths, r.totalCases, DaysBetween(r.date, first))
  }

  function DropState(r: NationalRecord): StateRecord
  {
    StateRecord(r.date, r.infected, r.confirmed, r.dead, r.recovered, r.day)
  }

  function DropStateAndCity(r: CityRecord): CityDayRecord
  {
    CityDayRecord(r.date, r.dead, r.confirmed, r.day)
  }

  /** `s` holds the values of `n` in every column but `state`. */
  predicate SameButState(s: StateRecord, n: NationalRecord)
  {
    && s.date == n.date && s.infected == n.infected && s.confirmed == n.confirmed
    && s.dead == n.dead && s.recovered == n.recovered && s.day == n.day
  }

  /** `s` holds the values of `c` in every column but `state` and `city`. */
  predicate SameButStateAndCity(s: CityDayRecord, c: CityRecord)
  {
    s.date == c.date && s.dead == c.dead && s.confirmed == c.confirmed && s.day == c.day
  }

  // ---------------------------------------------------------------------------
  // The national table, described row by row

  /** `confirmed > min_confirmed` for each row of the feed. */
  function AboveThreshold(feed: seq<StateFeedRow>, minConfirmed: int): seq<bool>
  {
    seq(|feed|, i requires 0 <= i < |feed| => feed[i].totalCases > minConfirmed)
  }

  /** Positions in the feed of the rows that pass the threshold, in feed order. */
  function Survivors(feed: seq<StateFeedRow>, minConfirmed: int): (ps: seq<nat>)
    ensures forall j :: 0 <= j < |ps| ==> ps[j] < |feed|
  {
    Positions(AboveThreshold(feed, minConfirmed))
  }

  function FeedDates(feed: seq<StateFeedRow>): seq<Date>
  {
    seq(|feed|, i requires 0 <= i < |feed| => feed[i].date)
  }

  /** The earliest date among the surviving rows of every state. */
  function NationalFirstDate(feed: seq<StateFeedRow>, minConfirmed: int): Date
    requires |Survivors(feed, minConfirmed)| > 0
  {
    MinDate(Picked(FeedDates(feed), Survivors(feed, minConfirmed)))
  }

  /**
    The national table: one row per surviving feed row, in feed order, with
    its values under the new column names and its `day` counted from the
    earliest surviving date of any state.
   */
  function NationalTable(feed: seq<StateFeedRow>, minConfirmed: int): (table: seq<NationalRecord>)
    ensures |table| == |Survivors(feed, minConfirmed)|
  {
    var ps := Survivors(feed, minConfirmed);
    if |ps| == 0 then []
    else
      var first := NationalFirstDate(feed, minConfirmed);
      seq(|ps|, j requires 0 <= j < |ps| => WithDay(FillAndRename(feed[ps[j]]), first))
  }

  /** Output path of the national table, named after the date of its last row. */
  function NationalPath(dataPath: string, table: seq<NationalRecord>): (path: string)
    requires |table| > 0
    ensures |path| == |dataPath| + 29
    ensures path[..|dataPath| + 1] == dataPath + "/"
    ensures path[|dataPath| + 1..|dataPath| + 11] == IsoFormat(table[|table| - 1].date)
    ensures path[|dataPath| + 11..] == "_Brazil_by_day.csv"
  {
    var dir := dataPath + "/";
    var date := IsoFormat(table[|table| - 1].date);
    var tail := "_Brazil_by_day.csv";
    var name := date + tail;
    assert name[..10] == date && name[10..] == tail;
    assert (dir + name)[..|dir|] == dir && (dir + name)[|dir|..] == name;
    dir + name
  }

  // ---------------------------------------------------------------------------
  // The city table of one state, described row by row

  /** `state == state_name` for each row of the city feed. */
  function InState(feed: seq<CityFeedRow>, stateName: string): seq<bool>
  {
    seq(|feed|, i requires 0 <= i < |feed| => feed[i].state == stateName)
  }

  /** Positions in the city feed of the rows of one state, in feed order. */
  function StateRows(feed: seq<CityFeedRow>, stateName: string): (ps: seq<nat>)
    ensures forall j :: 0 <= j < |ps| ==> ps[j] < |feed|
  {
    Positions(InState(feed, stateName))
  }

  function CityFeedDates(feed: seq<CityFeedRow>): seq<Date>
  {
    seq(|feed|, i requires 0 <= i < |feed| => feed[i].date)
  }

  /** The earliest date among the city rows of one state. */
  function StateFirstDate(feed: seq<CityFeedRow>, stateName: string): Date
    requires |StateRows(feed, stateName)| > 0
  {
    MinDate(Picked(CityFeedDates(feed), StateRows(feed, stateName)))
  }

  /**
    The city table of a state: every feed row of that state, in feed order,
    with its values under the new column names and its `day` counted from the
    earliest date of that state.
   */
  function CityTable(feed: seq<CityFeedRow>, stateName: string): (table: seq<CityRecord>)
    ensures |table| == |StateRows(feed, stateName)|
  {
    var ps := StateRows(feed, stateName);
    if |ps| == 0 then []
    else
      var first := StateFirstDate(feed, stateName);
      seq(|ps|, j requires 0 <= j < |ps| => CityWithDay(feed[ps[j]], first))
  }

  /** Output path of a state's city table, named after the date of its last row. */
  function CityPath(dataPath: string, stateName: string, table: seq<CityRecord>): (path: string)
    requires |table| > 0
    ensures |path| == |dataPath| + |stateName| + 30
    ensures path[..|dataPath| + 1] == dataPath + "/"
    ensures path[|dataPath| + 1..|dataPath| + 11] == IsoFormat(table[|table| - 1].date)
    ensures path[|dataPath| + 11..] == "_" + stateName + "_cities_by_day.csv"
  {
    var dir := dataPath + "/";
    var date := IsoFormat(table[|table| - 1].date);
    var tail := "_" + stateName + "_cities_by_day.csv";
    var name := date + tail;
    assert name[..10] == date && name[10..] == tail;
    assert (dir + name)[..|dir|] == dir && (dir + name)[|dir|..] == name;
    dir + name
  }

  // ---------------------------------------------------------------------------
  // The four operations

  /** `df.confirmed > min_confirmed` on the loader's frame; `AboveThreshold` is the same mask over the feed, for the reference table. */
  function ConfirmedAbove(df: Frame<StateRow>, minConfirmed: int): seq<bool>
  {
    seq(|df|, i requires 0 <= i < |df| => df[i].row.confirmed > minConfirmed)
  }

  /** `df.date` on the loader's frame; `FeedDates` is the same column over the feed, for the reference table. */
  function StateDates(df: Frame<StateRow>): seq<Date>
  {
    seq(|df|, i requires 0 <= i < |df| => df[i].row.date)
  }

  /** `df["day"] = df.date.apply(lambda x: (x - df.date.min()).days)`. */
  function AddDay(df: Frame<StateRow>): (dated: Frame<NationalRecord>)
    ensures |dated| == |df|
    ensures forall i :: 0 <= i < |df| ==> dated[i].index == df[i].index && dated[i].row.date == df[i].row.date
    ensures forall i :: 0 <= i < |df| ==>
      var r, n := df[i].row, dated[i].row;
      n.state == r.state && n.infected == r.infected && n.confirmed == r.confirmed
      && n.dead == r.dead && n.recovered == r.recovered
    ensures forall i :: 0 <= i < |dated| ==> dated[i].row.day >= 0
    ensures |df| > 0 ==> exists i :: 0 <= i < |dated| && dated[i].row.day == 0
    ensures forall i, k :: 0 <= i < |df| && 0 <= k < |df| ==>
      dated[i].row.day - dated[k].row.day == DaysBetween(df[i].row.date, df[k].row.date)
  {
    if |df| == 0 then []
    else
      var dates := StateDates(df);
      var first := MinDate(dates);
      assert forall i :: 0 <= i < |df| ==> DaysBetween(df[i].row.date, first) >= 0 by {
        forall i | 0 <= i < |df| ensures DaysBetween(df[i].row.date, first) >= 0 {
          assert dates[i] == df[i].row.date;
        }
      }
      forall i, k | 0 <= i < |df| && 0 <= k < |df|
        ensures DaysBetween(df[i].row.date, first) - DaysBetween(df[k].row.date, first)
          == DaysBetween(df[i].row.date, df[k].row.date)
      {
        DayOffsets(df[i].row.date, df[k].row.date, first);
      }
      Select(df, (r: StateRow) => WithDay(r, first))
  }

  /**
    `getBrazilDataFrame`: fill, rename, keep the rows above the threshold,
    add `day`, renumber, and, when `store` is set, name the output file.
   */
  method GetBrazilDataFrame(feed: seq<StateFeedRow>, dataPath: string,
                            minConfirmed: int := DEFAULT_MIN_CONFIRMED, store: bool := false)
    returns (out: Outcome<NationalRecord>)
    ensures out.IndexError? <==>
      store && forall i :: 0 <= i < |feed| ==> feed[i].totalCases <= minConfirmed
    ensures out.Returned? ==> out.frame == FromRows(NationalTable(feed, minConfirmed))
    ensures out.Returned? ==> (out.written.Some? <==> store)
    ensures out.Returned? && store ==>
      |out.frame| > 0 && out.written == Some(NationalPath(dataPath, Rows(out.frame)))
  {
    var df := Select(FromRows(feed), FillAndRename);
    df := Where(df, ConfirmedAbove(df, minConfirmed));
    var dated := AddDay(df);
    var table := ResetIndex(dated);
    NationalSteps(feed, minConfirmed);
    if store {
      NoSurvivors(feed, minConfirmed);
      if |table| == 0 {
        return IndexError;
      }
      return Returned(table, Some(NationalPath(dataPath, Rows(table))));
    }
    return Returned(table, None);
  }

  /** The loader's steps, applied to the feed, build the national table. */
  lemma NationalSteps(feed: seq<StateFeedRow>, minConfirmed: int)
    ensures var df := Select(FromRows(feed), FillAndRename);
      ResetIndex(AddDay(Where(df, ConfirmedAbove(df, minConfirmed))))
        == FromRows(NationalTable(feed, minConfirmed))
  {
    var fetched := Select(FromRows(feed), FillAndRename);
    var df := Where(fetched, ConfirmedAbove(fetched, minConfirmed));
    NationalFiltered(feed, minConfirmed);
    NationalDated(feed, minConfirmed, df);
  }

  /** Adding `day` to the surviving rows gives the rows of the national table. */
  lemma NationalDated(feed: seq<StateFeedRow>, minConfirmed: int, df: Frame<StateRow>)
    requires var ps := Survivors(feed, minConfirmed);
      && |df| == |ps|
      && forall j :: 0 <= j < |ps| ==> df[j].row == FillAndRename(feed[ps[j]])
    ensures Rows(AddDay(df)) == NationalTable(feed, minConfirmed)
  {
    var ps := Survivors(feed, minConfirmed);
    if |df| > 0 {
      var first := NationalFirstDate(feed, minConfirmed);
      SurvivorsFirstDate(feed, minConfirmed, df);
      var dated := AddDay(df);
      forall j | 0 <= j < |ps| ensures Rows(dated)[j] == WithDay(FillAndRename(feed[ps[j]]), first) {
        assert dated[j].row == WithDay(df[j].row, first);
      }
      NationalTableRows(feed, minConfirmed, Rows(dated));
    }
  }

  /** The minimum date of the surviving rows is the national first date. */
  lemma SurvivorsFirstDate(feed: seq<StateFeedRow>, minConfirmed: int, df: Frame<StateRow>)
    requires var ps := Survivors(feed, minConfirmed);
      && 0 < |df| == |ps|
      && forall j :: 0 <= j < |ps| ==> df[j].row == FillAndRename(feed[ps[j]])
    ensures MinDate(StateDates(df)) == NationalFirstDate(feed, minConfirmed)
  {
    assert StateDates(df) == Picked(FeedDates(feed), Survivors(feed, minConfirmed));
  }

  /** The threshold step keeps, in order, the renamed feed rows at `Survivors`. */
  lemma NationalFiltered(feed: seq<StateFeedRow>, minConfirmed: int)
    ensures var fetched := Select(FromRows(feed), FillAndRename);
      var df := Where(fetched, ConfirmedAbove(fetched, minConfirmed));
      var ps := Survivors(feed, minConfirmed);
      && |df| == |ps|
      && forall j :: 0 <= j < |ps| ==> df[j].row == FillAndRename(feed[ps[j]])
  {
    var fetched := Select(FromRows(feed), FillAndRename);
    var mask := ConfirmedAbove(fetched, minConfirmed);
    assert mask == AboveThreshold(feed, minConfirmed) by {
      forall i | 0 <= i < |feed| ensures mask[i] == AboveThreshold(feed, minConfirmed)[i] {
        assert fetched[i].row == FillAndRename(feed[i]);
      }
    }
    WhereIsPicked(fetched, mask);
  }

  /** No row survives exactly when no row exceeds the threshold. */
  lemma NoSurvivors(feed: seq<StateFeedRow>, minConfirmed: int)
    ensures |Survivors(feed, minConfirmed)| == 0 <==>
      forall i :: 0 <= i < |feed| ==> feed[i].totalCases <= minConfirmed
  {
    var mask := AboveThreshold(feed, minConfirmed);
    NoPositions(mask);
    assert forall i :: 0 <= i < |feed| ==> (mask[i] <==> feed[i].totalCases > minConfirmed);
  }

  /** A sequence that agrees with the national table row by row is the national table. */
  lemma NationalTableRows(feed: seq<StateFeedRow>, minConfirmed: int, rows: seq<NationalRecord>)
    requires |Survivors(feed, minConfirmed)| > 0
    requires var ps := Survivors(feed, minConfirmed);
      && |rows| == |ps|
      && forall j :: 0 <= j < |ps| ==>
           rows[j] == WithDay(FillAndRename(feed[ps[j]]), NationalFirstDate(feed, minConfirmed))
    ensures rows == NationalTable(feed, minConfirmed)
  {
  }

  /** `df[df["state"] == state_name]` on a national table. */
  function StateMask(table: Frame<NationalRecord>, stateName: string): seq<bool>
  {
    seq(|table|, i requires 0 <= i < |table| => table[i].row.state == stateName)
  }

  /**
    `getBrazilStateDataFrame`: the rows of one state, in table order, without
    the `state` column and renumbered from 0; no such row gives an empty table.
   */
  function GetBrazilStateDataFrame(table: Frame<NationalRecord>, stateName: string)
    : (slice: Frame<StateRecord>)
    ensures Contiguous(slice)
    ensures var ps := Positions(StateMask(table, stateName));
      && |slice| == |ps|
      && forall j :: 0 <= j < |ps| ==> SameButState(slice[j].row, table[ps[j]].row)
    ensures |slice| == 0 <==> forall i :: 0 <= i < |table| ==> table[i].row.state != stateName
  {
    var mask := StateMask(table, stateName);
    FilterProject(table, mask, DropState);
    NoPositions(mask);
    assert forall i :: 0 <= i < |table| ==> (mask[i] <==> table[i].row.state == stateName);
    var df := Where(table, mask);
    ResetIndex(Select(df, DropState))
  }

  /** `df["state"] == state_name` on the loader's frame; `InState` is the same mask over the feed, for the reference table. */
  function StateIs(df: Frame<CityFeedRow>, stateName: string): seq<bool>
  {
    seq(|df|, i requires 0 <= i < |df| => df[i].row.state == stateName)
  }

  /** `df.date` on the loader's city frame; `CityFeedDates` is the same column over the feed, for the reference table. */
  function CityDates(df: Frame<CityFeedRow>): seq<Date>
  {
    seq(|df|, i requires 0 <= i < |df| => df[i].row.date)
  }

  /**
    `df["day"] = df.date.apply(lambda x: (x - df.date.min()).days)`, then the
    rename and the choice of columns date, state, city, dead, confirmed, day.
   */
  function ShapeCityRows(df: Frame<CityFeedRow>): (shaped: Frame<CityRecord>)
    ensures |shaped| == |df|
    ensures forall i :: 0 <= i < |df| ==> shaped[i].index == df[i].index && shaped[i].row.date == df[i].row.date
    ensures forall i :: 0 <= i < |df| ==>
      var r, c := df[i].row, shaped[i].row;
      c.state == r.state && c.city == r.city && c.dead == r.deaths && c.confirmed == r.totalCases
    ensures forall i :: 0 <= i < |shaped| ==> shaped[i].row.day >= 0
    ensures |df| > 0 ==> exists i :: 0 <= i < |shaped| && shaped[i].row.day == 0
    ensures forall i, k :: 0 <= i < |df| && 0 <= k < |df| ==>
      shaped[i].row.day - shaped[k].row.day == DaysBetween(df[i].row.date, df[k].row.date)
  {
    if |df| == 0 then []
    else
      var dates := CityDates(df);
      var first := MinDate(dates);
      assert forall i :: 0 <= i < |df| ==> DaysBetween(df[i].row.date, first) >= 0 by {
        forall i | 0 <= i < |df| ensures DaysBetween(df[i].row.date, first) >= 0 {
          assert dates[i] == df[i].row.date;
        }
      }
      forall i, k | 0 <= i < |df| && 0 <= k < |df|
        ensures DaysBetween(df[i].row.date, first) - DaysBetween(df[k].row.date, first)
          == DaysBetween(df[i].row.date, df[k].row.date)
      {
        DayOffsets(df[i].row.date, df[k].row.date, first);
      }
      Select(df, (r: CityFeedRow) => CityWithDay(r, first))
  }

  /**
    `getBrazilStateCityDataFrame`: keep one state's rows, add `day` relative
    to that state's earliest date, rename and order the columns, renumber,
    and, when `store` is set, name the output file.
   */
  method GetBrazilStateCityDataFrame(feed: seq<CityFeedRow>, dataPath: string, stateName: string,
                                     store: bool := false)
    returns (out: Outcome<CityRecord>)
    ensures out.IndexError? <==>
      store && forall i :: 0 <= i < |feed| ==> feed[i].state != stateName
    ensures out.Returned? ==> out.frame == FromRows(CityTable(feed, stateName))
    ensures out.Returned? ==> (out.written.Some? <==> store)
    ensures out.Returned? && store ==>
      |out.frame| > 0 && out.written == Some(CityPath(dataPath, stateName, Rows(out.frame)))
  {
    var df := FromRows(feed);
    df := Where(df, StateIs(df, stateName));
    var shaped := ShapeCityRows(df);
    var table := ResetIndex(shaped);
    CitySteps(feed, stateName);
    if store {
      NoStateRows(feed, stateName);
      if |table| == 0 {
        return IndexError;
      }
      return Returned(table, Some(CityPath(dataPath, stateName, Rows(table))));
    }
    return Returned(table, None);
  }

  /** The loader's steps, applied to the city feed, build the state's city table. */
  lemma CitySteps(feed: seq<CityFeedRow>, stateName: string)
    ensures var df := FromRows(feed);
      ResetIndex(ShapeCityRows(Where(df, StateIs(df, stateName))))
        == FromRows(CityTable(feed, stateName))
  {
    var fetched := FromRows(feed);
    var df := Where(fetched, StateIs(fetched, stateName));
    CityFiltered(feed, stateName);
    CityShaped(feed, stateName, df);
  }

  /** Adding `day` and shaping the state's rows gives the rows of its city table. */
  lemma CityShaped(feed: seq<CityFeedRow>, stateName: string, df: Frame<CityFeedRow>)
    requires var ps := StateRows(feed, stateName);
      && |df| == |ps|
      && forall j :: 0 <= j < |ps| ==> df[j].row == feed[ps[j]]
    ensures Rows(ShapeCityRows(df)) == CityTable(feed, stateName)
  {
    var ps := StateRows(feed, stateName);
    if |df| > 0 {
      var first := StateFirstDate(feed, stateName);
      StateRowsFirstDate(feed, stateName, df);
      var shaped := ShapeCityRows(df);
      forall j | 0 <= j < |ps| ensures Rows(shaped)[j] == CityWithDay(feed[ps[j]], first) {
        assert shaped[j].row == CityWithDay(df[j].row, first);
      }
      CityTableRows(feed, stateName, Rows(shaped));
    }
  }

  /** The minimum date of the state's rows is the state's first date. */
  lemma StateRowsFirstDate(feed: seq<CityFeedRow>, stateName: string, df: Frame<CityFeedRow>)
    requires var ps := StateRows(feed, stateName);
      && 0 < |df| == |ps|
      && forall j :: 0 <= j < |ps| ==> df[j].row == feed[ps[j]]
    ensures MinDate(CityDates(df)) == StateFirstDate(feed, stateName)
  {
    assert CityDates(df) == Picked(CityFeedDates(feed), StateRows(feed, stateName));
  }

  /** The state step keeps, in order, the feed rows at `StateRows`. */
  lemma CityFiltered(feed: seq<CityFeedRow>, stateName: string)
    ensures var fetched := FromRows(feed);
      var df := Where(fetched, StateIs(fetched, stateName));
      var ps := StateRows(feed, stateName);
      && |df| == |ps|
      && forall j :: 0 <= j < |ps| ==> df[j].row == feed[ps[j]]
  {
    var fetched := FromRows(feed);
    var mask := StateIs(fetched, stateName);
    assert mask == InState(feed, stateName);
    WhereIsPicked(fetched, mask);
  }

  /** A state has no rows in the city table exactly when the feed has none. */
  lemma NoStateRows(feed: seq<CityFeedRow>, stateName: string)
    ensures |StateRows(feed, stateName)| == 0 <==>
      forall i :: 0 <= i < |feed| ==> feed[i].state != stateName
  {
    var mask := InState(feed, stateName);
    NoPositions(mask);
    assert forall i :: 0 <= i < |feed| ==> (mask[i] <==> feed[i].state == stateName);
  }

  /** A sequence that agrees with the city table row by row is the city table. */
  lemma CityTableRows(feed: seq<CityFeedRow>, stateName: string, rows: seq<CityRecord>)
    requires |StateRows(feed, stateName)| > 0
    requires var ps := StateRows(feed, stateName);
      && |rows| == |ps|
      && forall j :: 0 <= j < |ps| ==>
           rows[j] == CityWithDay(feed[ps[j]], StateFirstDate(feed, stateName))
    ensures rows == CityTable(feed, stateName)
  {
  }

  /** `df[df["city"] == city_name]` on a city table. */
  function CityMask(table: Frame<CityRecord>, cityName: string): seq<bool>
  {
    seq(|table|, i requires 0 <= i < |table| => table[i].row.city == cityName)
  }

  /**
    `getBrazilCityDataFrame`: the rows of one city, in table order, without
    `state` and `city` and renumbered from 0; no such row gives an empty table.
   */
  function GetBrazilCityDataFrame(table: Frame<CityRecord>, cityName: string)
    : (slice: Frame<CityDayRecord>)
    ensures Contiguous(slice)
    ensures var ps := Positions(CityMask(table, cityName));
      && |slice| == |ps|
      && forall j :: 0 <= j < |ps| ==> SameButStateAndCity(slice[j].row, table[ps[j]].row)
    ensures |slice| == 0 <==> forall i :: 0 <= i < |table| ==> table[i].row.city != cityName
  {
    var mask := CityMask(table, cityName);
    FilterProject(table, mask, DropStateAndCity);
    NoPositions(mask);
    assert forall i :: 0 <= i < |table| ==> (mask[i] <==> table[i].row.city == cityName);
    var df := Where(table, mask);
    ResetIndex(Select(df, DropStateAndCity))
  }
}
