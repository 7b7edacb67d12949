/**
  What the loaders and slices promise, stated against the feeds they read:
  which rows survive and in what order, how values carry over under the new
  column names, how the `day` column is anchored, what the slices of the
  loaders' tables hold, and how the output file is named.
 */
module LoadDataProperties {
  import opened Frames
  import opened Calendar
  import opened LoadData

  /** `n` carries the values of feed row `r` under the national column names. */
  predicate RenamedFrom(n: NationalRecord, r: StateFeedRow)
  {
    && n.date == r.date && n.state == r.state
    && n.infected == r.newCases && n.confirmed == r.totalCases && n.dead == r.deaths
    && (r.recovered.None? ==> n.recovered == 0)
    && (r.recovered.Some? ==> n.recovered == r.recovered.value)
  }

  /** `c` carries the values of city feed row `r` under the city column names. */
  predicate CityRenamedFrom(c: CityRecord, r: CityFeedRow)
  {
    && c.date == r.date && c.state == r.state && c.city == r.city
    && c.dead == r.deaths && c.confirmed == r.totalCases
  }

  // ---------------------------------------------------------------------------
  // National loader

  /**
    The national table holds exactly the feed rows with `confirmed` strictly
    above the threshold, in feed order, each with its values under the new
    names and a missing `recovered` read as 0.
   */
  lemma NationalKeepsSurvivors(feed: seq<StateFeedRow>, minConfirmed: int)
    ensures var t := NationalTable(feed, minConfirmed);
      var ps := Survivors(feed, minConfirmed);
      && |t| == |ps|
      && Increasing(ps)
      && (forall k :: 0 <= k < |feed| ==> (k in ps <==> feed[k].totalCases > minConfirmed))
      && (forall j :: 0 <= j < |t| ==> t[j].confirmed > minConfirmed)
      && (forall j :: 0 <= j < |t| ==> RenamedFrom(t[j], feed[ps[j]]))
  {
    var t := NationalTable(feed, minConfirmed);
    var ps := Survivors(feed, minConfirmed);
    var mask := AboveThreshold(feed, minConfirmed);
    InPositions(mask);
    assert forall k :: 0 <= k < |feed| ==> (mask[k] <==> feed[k].totalCases > minConfirmed);
    if |ps| > 0 {
      var first := NationalFirstDate(feed, minConfirmed);
      forall j | 0 <= j < |t|
        ensures t[j].confirmed > minConfirmed && RenamedFrom(t[j], feed[ps[j]])
      {
        assert t[j] == WithDay(FillAndRename(feed[ps[j]]), first);
        assert mask[ps[j]];
      }
    }
  }

  /**
    The national `day` is anchored on the earliest surviving date of all
    states together: it is never negative, it is 0 on some row of a non-empty
    table, two rows' days differ by the days between their dates, and a later
    date never has a smaller day.
   */
  lemma NationalDays(feed: seq<StateFeedRow>, minConfirmed: int)
    ensures var t := NationalTable(feed, minConfirmed);
      && (forall j :: 0 <= j < |t| ==> t[j].day >= 0)
      && (|t| > 0 ==> exists j :: 0 <= j < |t| && t[j].day == 0)
      && (forall j, k :: 0 <= j < |t| && 0 <= k < |t| ==>
            t[j].day - t[k].day == DaysBetween(t[j].date, t[k].date))
      && (forall j, k :: 0 <= j < |t| && 0 <= k < |t| && NotAfter(t[j].date, t[k].date) ==>
            t[j].day <= t[k].day)
  {
    var t := NationalTable(feed, minConfirmed);
    var ps := Survivors(feed, minConfirmed);
    if |ps| > 0 {
      var first := NationalFirstDate(feed, minConfirmed);
      var dates := Picked(FeedDates(feed), ps);
      forall j | 0 <= j < |t|
        ensures t[j].date == dates[j] && t[j].day == DaysBetween(dates[j], first)
      {
      }
      forall j, k | 0 <= j < |t| && 0 <= k < |t|
        ensures t[j].day - t[k].day == DaysBetween(t[j].date, t[k].date)
        ensures NotAfter(t[j].date, t[k].date) ==> t[j].day <= t[k].day
      {
        DayOffsets(t[j].date, t[k].date, first);
      }
      var z :| 0 <= z < |dates| && dates[z] == first;
      assert t[z].day == 0;
    }
  }

  /** Rows of the feed above the threshold that belong to one state. */
  function AboveThresholdIn(feed: seq<StateFeedRow>, minConfirmed: int, stateName: string): seq<bool>
  {
    seq(|feed|, i requires 0 <= i < |feed| =>
      feed[i].totalCases > minConfirmed && feed[i].state == stateName)
  }

  // ---------------------------------------------------------------------------
  // State slice of the national table

  /**
    Slicing the national table by a state gives exactly that state's feed rows
    above the threshold, in feed order, with `day` still counted from the
    earliest date of all states, so a state's first day need not be 0.
   */
  lemma StateSliceOfNationalTable(feed: seq<StateFeedRow>, minConfirmed: int, stateName: string)
    ensures var slice := GetBrazilStateDataFrame(FromRows(NationalTable(feed, minConfirmed)), stateName);
      var ps := Positions(AboveThresholdIn(feed, minConfirmed, stateName));
      && |slice| == |ps|
      && forall j :: 0 <= j < |ps| ==>
           && slice[j].row.date == feed[ps[j]].date
           && slice[j].row.infected == feed[ps[j]].newCases
           && slice[j].row.confirmed == feed[ps[j]].totalCases
           && slice[j].row.dead == feed[ps[j]].deaths
           && slice[j].row.recovered == (if feed[ps[j]].recovered.Some? then feed[ps[j]].recovered.value else 0)
           && slice[j].row.day == DaysBetween(feed[ps[j]].date, NationalFirstDate(feed, minConfirmed))
  {
    StateSliceRows(feed, minConfirmed, stateName);
  }

  /**
    Row `j` of a state slice of the national table is the national row built
    from the `j`-th feed row of that state above the threshold.
   */
  lemma StateSliceRows(feed: seq<StateFeedRow>, minConfirmed: int, stateName: string)
    ensures var slice := GetBrazilStateDataFrame(FromRows(NationalTable(feed, minConfirmed)), stateName);
      var ps := Positions(AboveThresholdIn(feed, minConfirmed, stateName));
      && |slice| == |ps|
      && (|ps| > 0 ==> |Survivors(feed, minConfirmed)| > 0)
      && (|ps| > 0 ==> forall j :: 0 <= j < |ps| ==>
           SameButState(slice[j].row, WithDay(FillAndRename(feed[ps[j]]), NationalFirstDate(feed, minConfirmed))))
  {
    var t := NationalTable(feed, minConfirmed);
    var table := FromRows(t);
    var outer := AboveThreshold(feed, minConfirmed);
    var inner := StateMask(table, stateName);
    var both := AboveThresholdIn(feed, minConfirmed, stateName);
    var survivors := Positions(outer);
    NationalKeepsSurvivors(feed, minConfirmed);
    forall j | 0 <= j < |inner|
      ensures inner[j] == both[survivors[j]]
    {
      assert outer[survivors[j]];
    }
    NestedPositions(outer, inner, both);
    var slice := GetBrazilStateDataFrame(table, stateName);
    var qs := Positions(inner);
    var ps := Positions(both);
    if |ps| > 0 {
      var first := NationalFirstDate(feed, minConfirmed);
      forall j | 0 <= j < |ps|
        ensures SameButState(slice[j].row, WithDay(FillAndRename(feed[ps[j]]), first))
      {
        assert ps[j] == survivors[qs[j]];
        assert t[qs[j]] == WithDay(FillAndRename(feed[survivors[qs[j]]]), first);
      }
    }
  }

  /**
    The state slice of a table that starts on day 0 may itself start later:
    with an SP row on 2020-02-26 and an RJ row on 2020-03-05, both above the
    default threshold, the RJ slice starts on day 8.
   */
  lemma StateSliceMayStartAfterDayZero()
    ensures var slice := GetBrazilStateDataFrame(FromRows(NationalTable(TwoStates(), DEFAULT_MIN_CONFIRMED)), "RJ");
      |slice| == 1 && slice[0].row.day == 8
  {
    var feed := TwoStates();
    StateSliceOfNationalTable(feed, DEFAULT_MIN_CONFIRMED, "RJ");
    TwoStatesFirstDate();
    TwoStatesRioRows();
    MarchFifthIsDayEight();
  }

  /** The feed of the example above: SP on 2020-02-26, RJ on 2020-03-05. */
  function TwoStates(): seq<StateFeedRow>
  {
    [StateFeedRow(YearMonthDay(2020, 2, 26), "SP", 10, 10, 0, None),
     StateFeedRow(YearMonthDay(2020, 3, 5), "RJ", 10, 10, 0, Some(1))]
  }

  lemma TwoStatesFirstDate()
    ensures |Survivors(TwoStates(), DEFAULT_MIN_CONFIRMED)| > 0
    ensures NationalFirstDate(TwoStates(), DEFAULT_MIN_CONFIRMED) == YearMonthDay(2020, 2, 26)
  {
    var feed := TwoStates();
    PositionsUnique(AboveThreshold(feed, DEFAULT_MIN_CONFIRMED), [0, 1]);
    assert Picked(FeedDates(feed), [0, 1]) == [YearMonthDay(2020, 2, 26), YearMonthDay(2020, 3, 5)];
  }

  lemma TwoStatesRioRows()
    ensures Positions(AboveThresholdIn(TwoStates(), DEFAULT_MIN_CONFIRMED, "RJ")) == [1]
  {
    PositionsUnique(AboveThresholdIn(TwoStates(), DEFAULT_MIN_CONFIRMED, "RJ"), [1]);
  }

  lemma MarchFifthIsDayEight()
    ensures DaysBetween(YearMonthDay(2020, 3, 5), YearMonthDay(2020, 2, 26)) == 8
  {
    assert IsLeapYear(2020);
    assert DaysBeforeMonth(2020, 3) == 60 && DaysBeforeMonth(2020, 2) == 31;
  }

  /**
    An RJ feed of two rows, 2020-03-01 with 3 confirmed cases and 2020-03-10
    with 50: at threshold 5 only the second survives, on day 0, with its
    missing `recovered` read as 0.
   */
  lemma RioExample()
    ensures NationalTable([
        StateFeedRow(YearMonthDay(2020, 3, 1), "RJ", 3, 3, 0, None),
        StateFeedRow(YearMonthDay(2020, 3, 10), "RJ", 47, 50, 1, None)], DEFAULT_MIN_CONFIRMED)
      == [NationalRecord(YearMonthDay(2020, 3, 10), "RJ", 47, 50, 1, 0, 0)]
  {
    var feed := [
      StateFeedRow(YearMonthDay(2020, 3, 1), "RJ", 3, 3, 0, None),
      StateFeedRow(YearMonthDay(2020, 3, 10), "RJ", 47, 50, 1, None)];
    PositionsUnique(AboveThreshold(feed, DEFAULT_MIN_CONFIRMED), [1]);
    assert Picked(FeedDates(feed), [1]) == [YearMonthDay(2020, 3, 10)];
  }

  // ---------------------------------------------------------------------------
  // City loader

  /**
    A state's city table holds every city-feed row of that state and no other,
    in feed order, whatever its counts (there is no threshold), each with its
    values under the new names.
   */
  lemma CityTableKeepsStateRows(feed: seq<CityFeedRow>, stateName: string)
    ensures var t := CityTable(feed, stateName);
      var ps := StateRows(feed, stateName);
      && |t| == |ps|
      && Increasing(ps)
      && (forall k :: 0 <= k < |feed| ==> (k in ps <==> feed[k].state == stateName))
      && (forall j :: 0 <= j < |t| ==> t[j].state == stateName)
      && (forall j :: 0 <= j < |t| ==> CityRenamedFrom(t[j], feed[ps[j]]))
  {
    var t := CityTable(feed, stateName);
    var ps := StateRows(feed, stateName);
    var mask := InState(feed, stateName);
    InPositions(mask);
    assert forall k :: 0 <= k < |feed| ==> (mask[k] <==> feed[k].state == stateName);
    if |ps| > 0 {
      var first := StateFirstDate(feed, stateName);
      forall j | 0 <= j < |t|
        ensures t[j].state == stateName && CityRenamedFrom(t[j], feed[ps[j]])
      {
        assert t[j] == CityWithDay(feed[ps[j]], first);
        assert mask[ps[j]];
      }
    }
  }

  /**
    The city `day` is anchored on the earliest date of that state's rows: it
    is never negative, it is 0 on some row of a non-empty table, two rows'
    days differ by the days between their dates, and a later date never has a
    smaller day.
   */
  lemma CityDays(feed: seq<CityFeedRow>, stateName: string)
    ensures var t := CityTable(feed, stateName);
      && (forall j :: 0 <= j < |t| ==> t[j].day >= 0)
      && (|t| > 0 ==> exists j :: 0 <= j < |t| && t[j].day == 0)
      && (forall j, k :: 0 <= j < |t| && 0 <= k < |t| ==>
            t[j].day - t[k].day == DaysBetween(t[j].date, t[k].date))
      && (forall j, k :: 0 <= j < |t| && 0 <= k < |t| && NotAfter(t[j].date, t[k].date) ==>
            t[j].day <= t[k].day)
  {
    var t := CityTable(feed, stateName);
    var ps := StateRows(feed, stateName);
    if |ps| > 0 {
      var first := StateFirstDate(feed, stateName);
      var dates := Picked(CityFeedDates(feed), ps);
      forall j | 0 <= j < |t|
        ensures t[j].date == dates[j] && t[j].day == DaysBetween(dates[j], first)
      {
      }
      forall j, k | 0 <= j < |t| && 0 <= k < |t|
        ensures t[j].day - t[k].day == DaysBetween(t[j].date, t[k].date)
        ensures NotAfter(t[j].date, t[k].date) ==> t[j].day <= t[k].day
      {
        DayOffsets(t[j].date, t[k].date, first);
      }
      var z :| 0 <= z < |dates| && dates[z] == first;
      assert t[z].day == 0;
    }
  }

  /** Rows of the city feed that belong to one state and one city. */
  function InStateAndCity(feed: seq<CityFeedRow>, stateName: string, cityName: string): seq<bool>
  {
    seq(|feed|, i requires 0 <= i < |feed| => feed[i].state == stateName && feed[i].city == cityName)
  }

  // ---------------------------------------------------------------------------
  // City slice of a state's city table

  /**
    Slicing a state's city table by a city gives exactly that state's feed
    rows of that city, in feed order, with `day` counted from the state's
    earliest date.
   */
  lemma CitySliceOfCityTable(feed: seq<CityFeedRow>, stateName: string, cityName: string)
    ensures var slice := GetBrazilCityDataFrame(FromRows(CityTable(feed, stateName)), cityName);
      var ps := Positions(InStateAndCity(feed, stateName, cityName));
      && |slice| == |ps|
      && forall j :: 0 <= j < |ps| ==>
           && slice[j].row.date == feed[ps[j]].date
           && slice[j].row.dead == feed[ps[j]].deaths
           && slice[j].row.confirmed == feed[ps[j]].totalCases
           && slice[j].row.day == DaysBetween(feed[ps[j]].date, StateFirstDate(feed, stateName))
  {
    var t := CityTable(feed, stateName);
    var table := FromRows(t);
    var outer := InState(feed, stateName);
    var inner := CityMask(table, cityName);
    var both := InStateAndCity(feed, stateName, cityName);
    var rows := Positions(outer);
    CityTableKeepsStateRows(feed, stateName);
    forall j | 0 <= j < |inner|
      ensures inner[j] == both[rows[j]]
    {
      assert outer[rows[j]];
    }
    NestedPositions(outer, inner, both);
    var slice := GetBrazilCityDataFrame(table, cityName);
    var qs := Positions(inner);
    var ps := Positions(both);
    if |ps| > 0 {
      var first := StateFirstDate(feed, stateName);
      forall j | 0 <= j < |ps|
        ensures slice[j].row.day == DaysBetween(feed[ps[j]].date, first)
      {
        assert ps[j] == rows[qs[j]];
        assert t[qs[j]] == CityWithDay(feed[rows[qs[j]]], first);
      }
    }
  }

  // ---------------------------------------------------------------------------
  // Output file names

  /** Dates never decrease from one row to the next. */
  predicate DateOrdered(dates: seq<Date>)
  {
    forall i, k :: 0 <= i < k < |dates| ==> NotAfter(dates[i], dates[k])
  }

  /**
    The national file is named after the last row's date; when the feed is in
    date order that is the latest date of the table.
   */
  lemma NationalPathNamesLatestDate(feed: seq<StateFeedRow>, minConfirmed: int)
    requires DateOrdered(FeedDates(feed))
    ensures var t := NationalTable(feed, minConfirmed);
      forall j :: 0 <= j < |t| ==> NotAfter(t[j].date, t[|t| - 1].date)
  {
    var ps := Survivors(feed, minConfirmed);
    NationalTableDates(feed, minConfirmed);
    if |ps| > 0 {
      OrderedSelectionLast(FeedDates(feed), ps);
    }
  }

  /**
    A state's city file is named after the last row's date; when the city
    feed is in date order that is the latest date of the table.
   */
  lemma CityPathNamesLatestDate(feed: seq<CityFeedRow>, stateName: string)
    requires DateOrdered(CityFeedDates(feed))
    ensures var t := CityTable(feed, stateName);
      forall j :: 0 <= j < |t| ==> NotAfter(t[j].date, t[|t| - 1].date)
  {
    var ps := StateRows(feed, stateName);
    CityTableDates(feed, stateName);
    if |ps| > 0 {
      OrderedSelectionLast(CityFeedDates(feed), ps);
    }
  }

  /** Row `j` of the national table carries the date of feed row `Survivors[j]`. */
  lemma NationalTableDates(feed: seq<StateFeedRow>, minConfirmed: int)
    ensures var t := NationalTable(feed, minConfirmed);
      var ps := Survivors(feed, minConfirmed);
      |t| == |ps| && forall j :: 0 <= j < |t| ==> t[j].date == FeedDates(feed)[ps[j]]
  {
  }

  /** Row `j` of a state's city table carries the date of feed row `StateRows[j]`. */
  lemma CityTableDates(feed: seq<CityFeedRow>, stateName: string)
    ensures var t := CityTable(feed, stateName);
      var ps := StateRows(feed, stateName);
      |t| == |ps| && forall j :: 0 <= j < |t| ==> t[j].date == CityFeedDates(feed)[ps[j]]
  {
  }

  /** Selecting increasing positions of date-ordered dates ends on the latest one. */
  lemma OrderedSelectionLast(dates: seq<Date>, ps: seq<nat>)
    requires DateOrdered(dates) && Increasing(ps) && |ps| > 0
    requires forall i :: 0 <= i < |ps| ==> ps[i] < |dates|
    ensures forall j :: 0 <= j < |ps| ==> NotAfter(dates[ps[j]], dates[ps[|ps| - 1]])
  {
    forall j | 0 <= j < |ps|
      ensures NotAfter(dates[ps[j]], dates[ps[|ps| - 1]])
    {
      if j < |ps| - 1 {
        assert ps[j] < ps[|ps| - 1];
      }
    }
  }

  /**
    Out of date order, the name carries the last row's date, not the latest:
    from a feed listing SP on 2020-03-10 before RJ on 2020-03-01, the national
    file is named after 2020-03-01, whose text differs from that of the
    table's latest date 2020-03-10.
   */
  lemma NationalPathUsesLastRow(dataPath: string)
    ensures var t := NationalTable(OutOfOrder(), DEFAULT_MIN_CONFIRMED);
      && |t| == 2
      && t[0].date == YearMonthDay(2020, 3, 10) && t[1].date == YearMonthDay(2020, 3, 1)
      && Before(t[1].date, t[0].date)
      && NationalPath(dataPath, t) == (dataPath + "/") + (IsoFormat(t[1].date) + "_Brazil_by_day.csv")
      && IsoFormat(t[1].date) != IsoFormat(t[0].date)
  {
    OutOfOrderDates();
    IsoFormatInjective(YearMonthDay(2020, 3, 1), YearMonthDay(2020, 3, 10));
  }

  /** A feed out of date order: SP on 2020-03-10, then RJ on 2020-03-01. */
  function OutOfOrder(): seq<StateFeedRow>
  {
    [StateFeedRow(YearMonthDay(2020, 3, 10), "SP", 10, 10, 0, None),
     StateFeedRow(YearMonthDay(2020, 3, 1), "RJ", 10, 10, 0, None)]
  }

  lemma OutOfOrderDates()
    ensures var t := NationalTable(OutOfOrder(), DEFAULT_MIN_CONFIRMED);
      && |t| == 2
      && t[0].date == YearMonthDay(2020, 3, 10) && t[1].date == YearMonthDay(2020, 3, 1)
  {
    var feed := OutOfOrder();
    PositionsUnique(AboveThreshold(feed, DEFAULT_MIN_CONFIRMED), [0, 1]);
    NationalTableDates(feed, DEFAULT_MIN_CONFIRMED);
  }
}
