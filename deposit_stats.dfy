/** Deposit statistics (pgmodels/deposit_stats.go): the monthly cost
    totals computed over a report, the choice of table and date clause,
    the timeline query's institution filter, the sub-account rollup's
    guards and the fallback for an empty report. The statistics tables
    are the caller's: query results come in as parameters. Costs are
    reals; float64 rounding is not modelled. */
module DepositStatistics {
  import opened Wrappers
  import opened Errors

  const TOTAL := "Total"
  const CURRENT_STATS_TABLE := "current_deposit_stats"
  const HISTORICAL_STATS_TABLE := "historical_deposit_stats"
  const HISTORICAL_DATE_CLAUSE := " and (? = '0001-01-01 00:00:00+00:00:00' or end_date = ?) "

  /** Nanoseconds in a day. */
  const DAY := 86_400_000_000_000

  /** One row of a deposit report. */
  datatype DepositStats = DepositStats(
    institutionID: int,
    memberInstitutionID: int,
    institutionName: string,
    storageOption: string,
    objectCount: int,
    fileCount: int,
    totalBytes: int,
    totalGB: real,
    totalTB: real,
    costGBPerMonth: real,
    monthlyCost: real,
    endDate: int,
    primarySort: string,
    secondarySort: string)

  predicate IsTotal(s: DepositStats) {
    s.storageOption == TOTAL
  }

  // ---------------------------------------------------------------------
  // Monthly totals

  /** The rows from the loop's point onward after it, when `acc` is the
      cost summed since the last "Total" row. */
  function Totals(s: seq<DepositStats>, acc: real): (r: seq<DepositStats>)
    ensures |r| == |s|
  {
    if s == [] then []
    else
      var acc' := acc + s[0].monthlyCost;
      if IsTotal(s[0]) then [s[0].(monthlyCost := acc')] + Totals(s[1..], 0.0)
      else [s[0]] + Totals(s[1..], acc')
  }

  /** What calculateMontlyTotals leaves in the report. */
  function MonthlyTotals(s: seq<DepositStats>): (r: seq<DepositStats>)
    ensures |r| == |s|
  {
    Totals(s, 0.0)
  }

  /** The cost of row i and the rows before it back to, not including, the
      previous "Total" row. */
  function CostSinceLastTotal(s: seq<DepositStats>, i: nat): real
    requires i < |s|
  {
    s[i].monthlyCost + (if i == 0 || IsTotal(s[i - 1]) then 0.0 else CostSinceLastTotal(s, i - 1))
  }

  /** The running sum the loop holds before row k. */
  function CarriedCost(s: seq<DepositStats>, k: nat): real
    requires k <= |s|
  {
    if k == 0 || IsTotal(s[k - 1]) then 0.0 else CostSinceLastTotal(s, k - 1)
  }

  /** The row the report has at i afterwards. */
  function Expected(s: seq<DepositStats>, i: nat): DepositStats
    requires i < |s|
  {
    if IsTotal(s[i]) then s[i].(monthlyCost := CostSinceLastTotal(s, i)) else s[i]
  }

  lemma {:induction false} TotalsFrom(s: seq<DepositStats>, k: nat)
    requires k <= |s|
    ensures forall j :: 0 <= j < |s| - k ==> Totals(s[k..], CarriedCost(s, k))[j] == Expected(s, k + j)
    decreases |s| - k
  {
    if k < |s| {
      TotalsFrom(s, k + 1);
      var acc := CarriedCost(s, k);
      assert acc + s[k].monthlyCost == CostSinceLastTotal(s, k);
      assert s[k..][1..] == s[k + 1..];
      assert CarriedCost(s, k + 1) == if IsTotal(s[k]) then 0.0 else acc + s[k].monthlyCost;
      var r := Totals(s[k..], acc);
      var rest := Totals(s[k + 1..], CarriedCost(s, k + 1));
      assert r == [Expected(s, k)] + rest;
      forall j | 0 <= j < |s| - k ensures r[j] == Expected(s, k + j) {
        if j > 0 {
          assert r[j] == rest[j - 1];
        }
      }
    }
  }

  /** Row by row, the pass leaves Expected in the report. */
  lemma MonthlyTotalsPointwise(s: seq<DepositStats>)
    ensures forall i :: 0 <= i < |s| ==> MonthlyTotals(s)[i] == Expected(s, i)
  {
    TotalsFrom(s, 0);
    assert s[0..] == s;
    forall i | 0 <= i < |s| ensures MonthlyTotals(s)[i] == Expected(s, i) {
      assert Totals(s[0..], CarriedCost(s, 0))[i] == Expected(s, 0 + i);
    }
  }

  /** Every "Total" row gets the cost summed since the previous "Total"
      row, its own old cost included; every other row is unchanged. */
  lemma MonthlyTotalsSpec(s: seq<DepositStats>)
    ensures forall i :: 0 <= i < |s| && IsTotal(s[i]) ==>
              MonthlyTotals(s)[i] == s[i].(monthlyCost := CostSinceLastTotal(s, i))
    ensures forall i :: 0 <= i < |s| && !IsTotal(s[i]) ==> MonthlyTotals(s)[i] == s[i]
  {
    MonthlyTotalsPointwise(s);
  }

  /** Rows with no "Total" row after them change nothing. */
  lemma {:induction false} TrailingRowsIgnored(s: seq<DepositStats>, t: seq<DepositStats>, acc: real)
    requires forall i :: 0 <= i < |t| ==> !IsTotal(t[i])
    ensures Totals(s + t, acc)[..|s|] == Totals(s, acc)
    ensures Totals(s + t, acc)[|s|..] == t
  {
    if s == [] {
      assert s + t == t;
      NoTotalsUnchanged(t, acc);
    } else {
      var next := if IsTotal(s[0]) then 0.0 else acc + s[0].monthlyCost;
      assert (s + t)[0] == s[0];
      assert (s + t)[1..] == s[1..] + t;
      TotalsUnfold(s + t, acc);
      TotalsUnfold(s, acc);
      TrailingRowsIgnored(s[1..], t, next);
      var head := Totals(s, acc)[0];
      var tail := Totals(s[1..] + t, next);
      assert Totals(s + t, acc) == [head] + tail;
      assert tail[..|s| - 1] == Totals(s[1..], next);
      assert ([head] + tail)[..|s|] == [head] + tail[..|s| - 1];
      assert ([head] + tail)[|s|..] == tail[|s| - 1..];
    }
  }

  /** One step of the pass, for a non-empty rest of the report. */
  lemma TotalsUnfold(s: seq<DepositStats>, acc: real)
    requires s != []
    ensures Totals(s, acc) == [if IsTotal(s[0]) then s[0].(monthlyCost := acc + s[0].monthlyCost) else s[0]]
                              + Totals(s[1..], if IsTotal(s[0]) then 0.0 else acc + s[0].monthlyCost)
  {
  }

  lemma {:induction false} NoTotalsUnchanged(t: seq<DepositStats>, acc: real)
    requires forall i :: 0 <= i < |t| ==> !IsTotal(t[i])
    ensures Totals(t, acc) == t
  {
    if t != [] {
      NoTotalsUnchanged(t[1..], acc + t[0].monthlyCost);
    }
  }

  /** calculateMontlyTotals: one pass over the report that adds each
      row's cost to a running total and, at a "Total" row, stores the
      running total in the row and starts again from zero. */
  method CalculateMonthlyTotals(stats: array<DepositStats>)
    modifies stats
    ensures stats[..] == MonthlyTotals(old(stats[..]))
  {
    ghost var s := stats[..];
    var instTotal := 0.0;
    for i := 0 to stats.Length
      invariant forall j :: i <= j < stats.Length ==> stats[j] == s[j]
      invariant forall j :: 0 <= j < i ==> stats[j] == Expected(s, j)
      invariant instTotal == CarriedCost(s, i)
    {
      instTotal := instTotal + stats[i].monthlyCost;
      assert instTotal == CostSinceLastTotal(s, i);
      if stats[i].storageOption == TOTAL {
        stats[i] := stats[i].(monthlyCost := instTotal);
        instTotal := 0.0;
      }
    }
    MonthlyTotalsPointwise(s);
  }

  // ---------------------------------------------------------------------
  // Table and query selection

  /** time.Date(now.Year(), now.Month(), now.Day(), 0, 0, 0, 0, UTC):
      midnight at the start of now's day, not the first of the month the
      variable's name promises. */
  function StartOfDay(now: int): (t: int)
    ensures t <= now < t + DAY
    ensures t % DAY == 0
  {
    now - now % DAY
  }

  /** getTableNameAndDateClause: the current-stats view with no date
      clause for an end date from midnight today on, the historical table
      with its exact-date clause before that. */
  function TableNameAndDateClause(endDate: int, now: int): (r: (string, string))
    ensures r == (CURRENT_STATS_TABLE, "") <==> endDate >= StartOfDay(now)
    ensures r == (HISTORICAL_STATS_TABLE, HISTORICAL_DATE_CLAUSE) <==> endDate < StartOfDay(now)
  {
    var firstOfThisMonth := StartOfDay(now);
    if endDate > firstOfThisMonth || endDate == firstOfThisMonth then (CURRENT_STATS_TABLE, "")
    else (HISTORICAL_STATS_TABLE, HISTORICAL_DATE_CLAUSE)
  }

  /** Any end date from midnight today on reads the current view; any
      end date a day or more before now reads the history, even within
      the same month. */
  lemma TodayIsCurrent(endDate: int, now: int)
    ensures StartOfDay(now) <= endDate ==> TableNameAndDateClause(endDate, now).0 == CURRENT_STATS_TABLE
    ensures endDate <= now - DAY ==> TableNameAndDateClause(endDate, now).0 == HISTORICAL_STATS_TABLE
  {
  }

  /** The institution filter of getDepositTimelineQuery. */
  function TimelineOperator(institutionID: int): (op: string)
    ensures Count(op, '?') == if institutionID == 0 then 0 else 1
  {
    if institutionID == 0 then " is null " else " = ? "
  }

  /** The arguments DepositStatsOverTime passes: no institution id when it
      is zero, since the query then has no slot for it. Every placeholder
      gets exactly one argument: the institution filter's, if any, then
      the start and end dates. */
  function TimelineArgs(institutionID: int, startDate: int, endDate: int): (args: seq<int>)
    ensures |args| == Count(TimelineOperator(institutionID), '?') + 2
    ensures args[|args| - 2..] == [startDate, endDate]
  {
    if institutionID == 0 then [startDate, endDate] else [institutionID, startDate, endDate]
  }

  // ---------------------------------------------------------------------
  // Sub-account rollup and the report

  /** A list of rows and a possibly nil error; an empty list stands for a
      nil slice too. */
  datatype StatsResult = StatsResult(stats: seq<DepositStats>, err: Option<Error>)

  /** calculateSubAccountRollup, given what its lookups return: the
      institution lookup's error, HasSubAccounts, and the rollup query's
      rows and error. */
  function SubAccountRollup(institutionID: int, instErr: Option<Error>, hasSubAccounts: Result<bool, Error>,
                            rows: seq<DepositStats>, queryErr: Option<Error>): (r: StatsResult)
    ensures institutionID < 1 ==> r == StatsResult([], None)
    ensures r.stats != [] ==> r.stats == rows && institutionID >= 1 && hasSubAccounts == Ok(true)
    ensures r.err.Some? ==> r.err == instErr || r.err == queryErr || (hasSubAccounts.Err? && r.err == Some(hasSubAccounts.error))
  {
    if institutionID < 1 then StatsResult([], None)
    else if instErr.Some? then StatsResult([], instErr)
    else if hasSubAccounts.Err? then StatsResult([], Some(hasSubAccounts.error))
    else if !hasSubAccounts.value then StatsResult([], None)
    else if queryErr == Some(NoRows) then StatsResult(rows, None)
    else StatsResult(rows, queryErr)
  }

  /** The row reported when nothing was on deposit at the end date. */
  function EmptyReport(endDate: int): DepositStats {
    DepositStats(0, 0, TOTAL, TOTAL, 0, 0, 0, 0.0, 0.0, 0.0, 0.0, endDate, "", "")
  }

  /** DepositStatsSelect, given the main query's rows and error and the
      sub-account rollup: an empty result becomes one "Total" row; a query
      error returns at once; otherwise the rollup's rows are appended when
      it succeeded, and the monthly totals are computed. */
  method DepositStatsSelect(rows: seq<DepositStats>, queryErr: Option<Error>, endDate: int, rollup: StatsResult)
    returns (r: StatsResult)
    ensures queryErr.Some? ==> r == StatsResult(if rows == [] then [EmptyReport(endDate)] else rows, queryErr)
    ensures queryErr.None? ==>
              var stats := (if rows == [] then [EmptyReport(endDate)] else rows)
                           + (if rollup.err.None? then rollup.stats else []);
              r == StatsResult(MonthlyTotals(stats), rollup.err)
    ensures |r.stats| > 0
  {
    var stats := rows;
    if stats == [] {
      stats := [EmptyReport(endDate)];
    }
    if queryErr.Some? {
      return StatsResult(stats, queryErr);
    }
    ghost var base := stats;
    if rollup.err.None? && rollup.stats != [] {
      stats := stats + rollup.stats;
    }
    assert stats == base + (if rollup.err.None? then rollup.stats else []);
    var a := new DepositStats[|stats|](i requires 0 <= i < |stats| => stats[i]);
    assert a[..] == stats;
    CalculateMonthlyTotals(a);
    return StatsResult(a[..], rollup.err);
  }

  /** A report with nothing on deposit and no sub-accounts is the single
      empty "Total" row, with a zero cost. */
  lemma EmptyReportIsOneTotal(endDate: int)
    ensures MonthlyTotals([EmptyReport(endDate)]) == [EmptyReport(endDate)]
  {
    MonthlyTotalsSpec([EmptyReport(endDate)]);
  }
}
