/** The summary of a link's clicks, computed from the stored events and cached for five minutes. */
module Analytics {
  import opened Common
  import opened Schema
  import opened Grouping
  import opened Pipeline

  /** Seconds of a day, and of the life of a cached summary (ANALYTICS_CACHE_TTL). */
  const DAY := 86400
  const SUMMARY_TTL := 300

  /** How many groups a breakdown shows. */
  const TOP_GROUPS := 10

  datatype Dimension = Country | Browser | Os | Device | Referrer

  /** `tenths` is the percentage in tenths of a percent. */
  datatype Breakdown = Breakdown(name: string, count: nat, tenths: nat)

  datatype DailyStat = DailyStat(day: int, clicks: nat, uniqueVisitors: nat)

  datatype Summary = Summary(
    shortCode: string,
    totalClicks: nat,
    uniqueVisitors: nat,
    countries: seq<Breakdown>,
    browsers: seq<Breakdown>,
    oses: seq<Breakdown>,
    devices: seq<Breakdown>,
    referrers: seq<Breakdown>,
    daily: seq<DailyStat>,
    periodDays: nat)

  // ---------------------------------------------------------------------------------------------------------------
  // Queries on click_events
  // ---------------------------------------------------------------------------------------------------------------

  /** The clicks on a URL since a time. */
  function InPeriod(clicks: seq<Click>, id: Id, since: int): seq<Click> {
    if clicks == [] then []
    else
      var last := clicks[|clicks| - 1];
      InPeriod(clicks[..|clicks| - 1], id, since) + if last.urlId == id && last.createdAt >= since then [last] else []
  }

  /** The distinct visitor hashes; count(distinct) ignores nulls. */
  function Visitors(clicks: seq<Click>): set<string> {
    if clicks == [] then {}
    else
      var last := clicks[|clicks| - 1].info.visitorHash;
      Visitors(clicks[..|clicks| - 1]) + if last.Some? then {last.value} else {}
  }

  function Attribute(info: ClientInfo, dim: Dimension): Option<string> {
    match dim
    case Country => info.country
    case Browser => info.browser
    case Os => info.os
    case Device => info.device
    case Referrer => info.referrer
  }

  /** The column of a dimension, without its nulls. */
  function Values(clicks: seq<Click>, dim: Dimension): seq<string> {
    if clicks == [] then []
    else
      var last := Attribute(clicks[|clicks| - 1].info, dim);
      Values(clicks[..|clicks| - 1], dim) + if last.Some? then [last.value] else []
  }

  function DayOf(c: Click): int {
    c.createdAt / DAY
  }

  function Days(clicks: seq<Click>): seq<int> {
    if clicks == [] then [] else Days(clicks[..|clicks| - 1]) + [DayOf(clicks[|clicks| - 1])]
  }

  function OnDay(clicks: seq<Click>, day: int): seq<Click> {
    if clicks == [] then []
    else OnDay(clicks[..|clicks| - 1], day)
         + if DayOf(clicks[|clicks| - 1]) == day then [clicks[|clicks| - 1]] else []
  }

  predicate Earlier(a: Group<int>, b: Group<int>) {
    a.0 <= b.0
  }

  function DayGroups(clicks: seq<Click>): seq<Group<int>> {
    SortBy(Tally(Days(clicks)), (a, b) => Earlier(a, b))
  }

  function ToDaily(clicks: seq<Click>, groups: seq<Group<int>>): seq<DailyStat> {
    if groups == [] then []
    else [DailyStat(groups[0].0, groups[0].1, |Visitors(OnDay(clicks, groups[0].0))|)] + ToDaily(clicks, groups[1..])
  }

  /** round(count / total * 100, 1) in tenths, ties to even; 0 when there is no total. */
  function Tenths(count: nat, total: nat): nat {
    if total == 0 then 0
    else
      var q, r := 1000 * count / total, 1000 * count % total;
      if 2 * r < total || (2 * r == total && q % 2 == 0) then q else q + 1
  }

  function ToBreakdown(groups: seq<Group<string>>, total: nat): seq<Breakdown> {
    if groups == [] then []
    else [Breakdown(groups[0].0, groups[0].1, Tenths(groups[0].1, total))] + ToBreakdown(groups[1..], total)
  }

  function BreakdownOf(period: seq<Click>, dim: Dimension, total: nat): seq<Breakdown> {
    ToBreakdown(Top(Values(period, dim), TOP_GROUPS), total)
  }

  function Summarize(db: Db, row: Row, days: nat, now: int): Summary {
    var period := InPeriod(db.clicks, row.id, now - days * DAY);
    Summary(row.shortCode, row.clickCount, |Visitors(period)|,
            BreakdownOf(period, Country, row.clickCount),
            BreakdownOf(period, Browser, row.clickCount),
            BreakdownOf(period, Os, row.clickCount),
            BreakdownOf(period, Device, row.clickCount),
            BreakdownOf(period, Referrer, row.clickCount),
            ToDaily(period, DayGroups(period)),
            days)
  }

  // ---------------------------------------------------------------------------------------------------------------
  // What every summary promises
  // ---------------------------------------------------------------------------------------------------------------

  function SumTenths(rows: seq<Breakdown>): nat {
    if rows == [] then 0 else rows[0].tenths + SumTenths(rows[1..])
  }

  function SumClicks(stats: seq<DailyStat>): nat {
    if stats == [] then 0 else stats[0].clicks + SumClicks(stats[1..])
  }

  function SumUnique(stats: seq<DailyStat>): nat {
    if stats == [] then 0 else stats[0].uniqueVisitors + SumUnique(stats[1..])
  }

  /** At most ten distinct labels, most frequent first, each at most 100.0% and together at most 100.5%. */
  ghost predicate BreakdownOk(rows: seq<Breakdown>, total: nat) {
    && |rows| <= TOP_GROUPS
    && (forall i :: 0 <= i < |rows| ==> 0 < rows[i].count <= total && rows[i].tenths <= 1000)
    && (forall i, j :: 0 <= i < j < |rows| ==> rows[i].name != rows[j].name && rows[i].count >= rows[j].count)
    && SumTenths(rows) <= 1005
  }

  ghost predicate SummaryOk(s: Summary) {
    && s.uniqueVisitors <= SumUnique(s.daily) <= SumClicks(s.daily) <= s.totalClicks
    && (forall i, j :: 0 <= i < j < |s.daily| ==> s.daily[i].day < s.daily[j].day)
    && BreakdownOk(s.countries, s.totalClicks) && BreakdownOk(s.browsers, s.totalClicks)
    && BreakdownOk(s.oses, s.totalClicks) && BreakdownOk(s.devices, s.totalClicks)
    && BreakdownOk(s.referrers, s.totalClicks)
  }

  // Percentages ------------------------------------------------------------------------------------------------------

  /** Rounding is off by at most half a tenth. */
  lemma {:induction false} TenthsClose(count: nat, total: nat)
    requires total > 0
    ensures 2000 * count - total <= 2 * total * Tenths(count, total) <= 2000 * count + total
    ensures count <= total ==> Tenths(count, total) <= 1000
  {
    var q, r := 1000 * count / total, 1000 * count % total;
    assert 1000 * count == q * total + r;
    assert 2 * total * q == 2 * (q * total);
    assert 2 * total * (q + 1) == 2 * (q * total) + 2 * total;
    if count <= total && Tenths(count, total) > 1000 {
      var t := Tenths(count, total);
      assert 2 * total * t >= 2 * total * 1001 by { MulMonotone(2 * total, 1001, t); }
    }
  }

  lemma {:induction false} MulMonotone(a: nat, x: int, y: int)
    requires x <= y
    ensures a * x <= a * y
  {
  }

  lemma {:induction false} MulCancels(a: nat, x: int, y: int)
    requires a > 0 && a * x <= a * y
    ensures x <= y
  {
    if x > y {
      MulMonotone(a, y + 1, x);
    }
  }

  lemma {:induction false} AddScaled(total: nat, first: nat, rest: nat, count: nat, others: nat, n: nat)
    requires 2 * total * first <= 2000 * count + total
    requires 2 * total * rest <= 2000 * others + n * total
    ensures 2 * total * (first + rest) <= 2000 * (count + others) + (n + 1) * total
  {
    assert 2 * total * (first + rest) == 2 * total * first + 2 * total * rest;
    assert (n + 1) * total == n * total + total;
  }

  lemma {:induction false} DivideScaled(total: nat, sum: nat, count: nat, n: nat)
    requires 0 < total && count <= total
    requires 2 * total * sum <= 2000 * count + n * total
    ensures 2 * sum <= 2000 + n
  {
    assert total * (2 * sum) == 2 * total * sum;
    assert total * (2000 + n) == 2000 * total + n * total;
    MulCancels(total, 2 * sum, 2000 + n);
  }

  lemma {:induction false} ScaledSum(groups: seq<Group<string>>, total: nat)
    requires total > 0
    ensures 2 * total * SumTenths(ToBreakdown(groups, total)) <= 2000 * Sum(groups) + |groups| * total
  {
    hide Tenths;
    if groups == [] {
      assert SumTenths(ToBreakdown(groups, total)) == 0;
    } else {
      var rest := ToBreakdown(groups[1..], total);
      assert ToBreakdown(groups, total)[1..] == rest;
      ScaledSum(groups[1..], total);
      TenthsClose(groups[0].1, total);
      AddScaled(total, Tenths(groups[0].1, total), SumTenths(rest), groups[0].1, Sum(groups[1..]), |groups| - 1);
    }
  }

  /** Groups that hold no more than the total have percentages that sum to at most 100 plus half a tenth for each. */
  lemma {:induction false} PercentagesSum(groups: seq<Group<string>>, total: nat)
    requires Sum(groups) <= total
    ensures 2 * SumTenths(ToBreakdown(groups, total)) <= 2000 + |groups|
  {
    hide SumTenths, ToBreakdown, Sum;
    if total == 0 {
      NoTotal(groups);
    } else {
      ScaledSum(groups, total);
      DivideScaled(total, SumTenths(ToBreakdown(groups, total)), Sum(groups), |groups|);
    }
  }

  lemma {:induction false} NoTotal(groups: seq<Group<string>>)
    ensures SumTenths(ToBreakdown(groups, 0)) == 0
  {
    if groups == [] {
    } else {
      NoTotal(groups[1..]);
      assert ToBreakdown(groups, 0)[1..] == ToBreakdown(groups[1..], 0);
    }
  }

  lemma {:induction false} BreakdownRows(groups: seq<Group<string>>, total: nat)
    ensures |ToBreakdown(groups, total)| == |groups|
    ensures forall i :: 0 <= i < |groups| ==>
              ToBreakdown(groups, total)[i] == Breakdown(groups[i].0, groups[i].1, Tenths(groups[i].1, total))
  {
    hide Tenths;
    if groups == [] {
    } else {
      BreakdownRows(groups[1..], total);
    }
  }

  lemma {:induction false} NamedRow(groups: seq<Group<string>>, total: nat, j: nat)
    requires j < |groups|
    ensures |ToBreakdown(groups, total)| == |groups| && ToBreakdown(groups, total)[j].name == groups[j].0
  {
    BreakdownRows(groups, total);
  }

  lemma {:induction false} ValuesShorter(clicks: seq<Click>, dim: Dimension)
    ensures |Values(clicks, dim)| <= |clicks|
  {
    if clicks == [] {
    } else {
      ValuesShorter(clicks[..|clicks| - 1], dim);
    }
  }

  lemma {:induction false} SumBounds(groups: seq<Group<string>>, i: nat)
    requires i < |groups|
    ensures groups[i].1 <= Sum(groups)
  {
    if i == 0 {
    } else {
      SumBounds(groups[1..], i - 1);
    }
  }

  /** A breakdown of no more clicks than the total is in order. */
  lemma {:induction false} BreakdownIsOk(period: seq<Click>, dim: Dimension, total: nat)
    requires |period| <= total
    ensures BreakdownOk(BreakdownOf(period, dim, total), total)
  {
    hide Tenths, Top, SumTenths, Sum, Values, ToBreakdown, Distinct;
    var values := Values(period, dim);
    var groups := Top(values, TOP_GROUPS);
    var rows := ToBreakdown(groups, total);
    ValuesShorter(period, dim);
    TopShape(values, TOP_GROUPS);
    PercentagesSum(groups, total);
    BreakdownRows(groups, total);
    forall i | 0 <= i < |rows| ensures 0 < rows[i].count <= total && rows[i].tenths <= 1000 {
      SumBounds(groups, i);
      assert groups[i].0 in values;
      TenthsClose(groups[i].1, total);
    }
    forall i, j | 0 <= i < j < |rows| ensures rows[i].name != rows[j].name && rows[i].count >= rows[j].count {
      DistinctLabels(groups, i, j);
    }
  }

  /** A shown group is exact, and no group left out of a breakdown outranks one that is shown. */
  lemma {:induction false} BreakdownRanks(period: seq<Click>, dim: Dimension, total: nat, i: nat, omitted: string)
    requires i < |BreakdownOf(period, dim, total)|
    ensures var rows, values := BreakdownOf(period, dim, total), Values(period, dim);
      && rows[i].count == multiset(values)[rows[i].name]
      && (omitted in values && (forall j :: 0 <= j < |rows| ==> rows[j].name != omitted) ==>
            |rows| == TOP_GROUPS && rows[i].count >= multiset(values)[omitted])
  {
    hide Tenths, Top, Values;
    var values := Values(period, dim);
    var groups := Top(values, TOP_GROUPS);
    var rows := ToBreakdown(groups, total);
    BreakdownRows(groups, total);
    TopShape(values, TOP_GROUPS);
    if omitted in values && forall j :: 0 <= j < |rows| ==> rows[j].name != omitted {
      if omitted in Labels(groups) {
        var j := LabelIndex(groups, omitted);
        NamedRow(groups, total, j);
        assert false;
      }
      TopRanks(values, TOP_GROUPS, i, omitted);
    }
  }

  // Visitors and days ------------------------------------------------------------------------------------------------

  lemma {:induction false} VisitorsBounded(clicks: seq<Click>)
    ensures |Visitors(clicks)| <= |clicks|
  {
    if clicks == [] {
    } else {
      VisitorsBounded(clicks[..|clicks| - 1]);
    }
  }

  lemma {:induction false} OnDayCounts(clicks: seq<Click>, day: int)
    ensures |OnDay(clicks, day)| == multiset(Days(clicks))[day]
    ensures |Days(clicks)| == |clicks|
  {
    if clicks == [] {
    } else {
      OnDayCounts(clicks[..|clicks| - 1], day);
    }
  }

  /** Each visitor is a visitor of some day. */
  lemma {:induction false} VisitorHasDay(clicks: seq<Click>, v: string) returns (day: int)
    requires v in Visitors(clicks)
    ensures day in Days(clicks) && v in Visitors(OnDay(clicks, day))
  {
    var front, last := clicks[..|clicks| - 1], clicks[|clicks| - 1];
    if v in Visitors(front) {
      day := VisitorHasDay(front, v);
    } else {
      day := DayOf(last);
    }
    VisitorsGrow(OnDay(front, day), if DayOf(last) == day then [last] else []);
  }

  lemma {:induction false} VisitorsGrow(a: seq<Click>, b: seq<Click>)
    requires |b| <= 1
    ensures Visitors(a + b) == Visitors(a) + Visitors(b)
  {
    if b == [] {
      assert a + b == a;
    } else {
      assert (a + b)[..|a|] == a;
      assert b[..0] == [];
    }
  }

  /** The visitors of the days listed in `groups`. */
  ghost function VisitorsOver(clicks: seq<Click>, groups: seq<Group<int>>): set<string> {
    if groups == [] then {} else Visitors(OnDay(clicks, groups[0].0)) + VisitorsOver(clicks, groups[1..])
  }

  lemma {:induction false} VisitorsOverDay(clicks: seq<Click>, groups: seq<Group<int>>, day: int)
    requires day in Labels(groups)
    ensures Visitors(OnDay(clicks, day)) <= VisitorsOver(clicks, groups)
  {
    if groups[0].0 != day {
      VisitorsOverDay(clicks, groups[1..], day);
    }
  }

  lemma {:induction false} UnionSize<T>(a: set<T>, b: set<T>)
    ensures |a + b| <= |a| + |b|
  {
    assert a + b == a + (b - a);
    assert b == (b - a) + (b * a);
  }

  lemma {:induction false} DailySums(clicks: seq<Click>, groups: seq<Group<int>>)
    requires forall i :: 0 <= i < |groups| ==> groups[i].1 == |OnDay(clicks, groups[i].0)|
    ensures var stats := ToDaily(clicks, groups);
      |VisitorsOver(clicks, groups)| <= SumUnique(stats) <= SumClicks(stats) == Sum(groups)
  {
    if groups == [] {
    } else {
      DailySums(clicks, groups[1..]);
      assert ToDaily(clicks, groups)[1..] == ToDaily(clicks, groups[1..]);
      VisitorsBounded(OnDay(clicks, groups[0].0));
      UnionSize(Visitors(OnDay(clicks, groups[0].0)), VisitorsOver(clicks, groups[1..]));
    }
  }

  lemma {:induction false} DailyRows(clicks: seq<Click>, groups: seq<Group<int>>)
    ensures |ToDaily(clicks, groups)| == |groups|
    ensures forall i :: 0 <= i < |groups| ==> ToDaily(clicks, groups)[i].day == groups[i].0
  {
    hide OnDay, Visitors;
    if groups == [] {
    } else {
      DailyRows(clicks, groups[1..]);
    }
  }

  lemma {:induction false} DayGroupsExact(clicks: seq<Click>)
    ensures var groups := DayGroups(clicks);
      && Sum(groups) == |clicks|
      && (forall d :: d in Days(clicks) <==> d in Labels(groups))
      && (forall i :: 0 <= i < |groups| ==> groups[i].1 == |OnDay(clicks, groups[i].0)|)
      && (forall i, j :: 0 <= i < j < |groups| ==> groups[i].0 < groups[j].0)
  {
    hide OnDay, Days, Tally, SortBy, Sum, CountOf;
    var before := (a: Group<int>, b: Group<int>) => Earlier(a, b);
    var tally := Tally(Days(clicks));
    var groups := DayGroups(clicks);
    TallyCounts(Days(clicks), 0);
    SortKeeps(tally, before, 0);
    OnDayCounts(clicks, 0);
    forall d ensures d in Days(clicks) <==> d in Labels(groups) {
      TallyCounts(Days(clicks), d);
    }
    forall i | 0 <= i < |groups| ensures groups[i].1 == |OnDay(clicks, groups[i].0)| {
      MemberCount(groups, i);
      SortKeeps(tally, before, groups[i].0);
      TallyCounts(Days(clicks), groups[i].0);
      OnDayCounts(clicks, groups[i].0);
    }
    forall i, j | 0 <= i < j < |groups| ensures groups[i].0 < groups[j].0 {
      DistinctLabels(groups, i, j);
      assert before(groups[i], groups[j]);
    }
  }

  /** Unique visitors, summed daily uniques, summed daily clicks and the clicks of the period, in this order. */
  lemma {:induction false} DailyChain(clicks: seq<Click>)
    ensures var stats := ToDaily(clicks, DayGroups(clicks));
      && |Visitors(clicks)| <= SumUnique(stats) <= SumClicks(stats) == |clicks|
      && (forall i, j :: 0 <= i < j < |stats| ==> stats[i].day < stats[j].day)
  {
    hide OnDay, Days, DayGroups, ToDaily, Visitors, VisitorsOver;
    var groups := DayGroups(clicks);
    DayGroupsExact(clicks);
    DailySums(clicks, groups);
    DailyRows(clicks, groups);
    forall v | v in Visitors(clicks) ensures v in VisitorsOver(clicks, groups) {
      var day := VisitorHasDay(clicks, v);
      VisitorsOverDay(clicks, groups, day);
    }
    var over := VisitorsOver(clicks, groups);
    assert over == Visitors(clicks) + (over - Visitors(clicks));
  }

  lemma {:induction false} PeriodBounded(clicks: seq<Click>, id: Id, since: int)
    ensures |InPeriod(clicks, id, since)| <= CountFor(clicks, id)
  {
    if clicks == [] {
    } else {
      PeriodBounded(clicks[..|clicks| - 1], id, since);
    }
  }

  /** On a database whose counters are exact every fresh summary is in order, whatever its period. */
  lemma {:induction false} FreshSummaryOk(db: Db, id: Id, days: nat, now: int)
    requires CountersExact(db) && id in db.urls && db.urls[id].id == id
    ensures SummaryOk(Summarize(db, db.urls[id], days, now))
  {
    hide InPeriod, BreakdownOf, BreakdownOk, ToDaily, DayGroups, Visitors, SumUnique, SumClicks, CountFor;
    var row := db.urls[id];
    var period := InPeriod(db.clicks, id, now - days * DAY);
    PeriodBounded(db.clicks, id, now - days * DAY);
    DailyChain(period);
    forall dim ensures BreakdownOk(BreakdownOf(period, dim, row.clickCount), row.clickCount) {
      BreakdownIsOk(period, dim, row.clickCount);
    }
  }

  /** So is every summary taken from a database the pipeline can reach. */
  lemma {:induction false} ReachableSummaryOk(workers: nat, actions: seq<Action>, batchSize: nat,
                                              id: Id, days: nat, now: int)
    requires id in Run(Init(workers), actions, batchSize).db.urls
    ensures var db := Run(Init(workers), actions, batchSize).db;
      SummaryOk(Summarize(db, db.urls[id], days, now))
  {
    hide Run, Init, SummaryOk, Summarize, CountersExact, ParseAll, Restrict;
    CountersStayExact(workers, actions, batchSize);
    FreshSummaryOk(Run(Init(workers), actions, batchSize).db, id, days, now);
  }

  // ---------------------------------------------------------------------------------------------------------------
  // The figures of a summary, against the raw table of clicks
  // ---------------------------------------------------------------------------------------------------------------

  /** How many clicks satisfy `p`. */
  ghost function HowMany(clicks: seq<Click>, p: Click -> bool): nat {
    if clicks == [] then 0 else HowMany(clicks[..|clicks| - 1], p) + if p(clicks[|clicks| - 1]) then 1 else 0
  }

  /** The visitors of the clicks that satisfy `p`, as far as they are known. */
  ghost function Who(clicks: seq<Click>, p: Click -> bool): set<string> {
    set c | c in clicks && p(c) && c.info.visitorHash.Some? :: c.info.visitorHash.value
  }

  /** A click on the link, not older than `since`. */
  ghost predicate Counts(c: Click, id: Id, since: int) {
    c.urlId == id && since <= c.createdAt
  }

  lemma {:induction false} PeriodExactly(clicks: seq<Click>, id: Id, since: int, c: Click)
    ensures multiset(InPeriod(clicks, id, since))[c]
            == if c.urlId == id && since <= c.createdAt then multiset(clicks)[c] else 0
  {
    if clicks == [] {
    } else {
      var front, last := clicks[..|clicks| - 1], clicks[|clicks| - 1];
      PeriodExactly(front, id, since, c);
      assert clicks == front + [last];
      OneMoreClick(front, last, c);
      if last.urlId == id && since <= last.createdAt {
        OneMoreClick(InPeriod(front, id, since), last, c);
      } else {
        assert InPeriod(clicks, id, since) == InPeriod(front, id, since);
      }
    }
  }

  lemma {:induction false} HowManyOneMore(clicks: seq<Click>, c: Click, p: Click -> bool)
    ensures HowMany(clicks + [c], p) == HowMany(clicks, p) + if p(c) then 1 else 0
  {
    assert (clicks + [c])[..|clicks|] == clicks;
  }

  /** Counting in the period is counting in the table. */
  lemma {:induction false} HowManyInPeriod(clicks: seq<Click>, id: Id, since: int, p: Click -> bool, q: Click -> bool)
    requires forall c :: q(c) <==> c.urlId == id && since <= c.createdAt && p(c)
    ensures HowMany(InPeriod(clicks, id, since), p) == HowMany(clicks, q)
  {
    if clicks == [] {
    } else {
      var front, last := clicks[..|clicks| - 1], clicks[|clicks| - 1];
      HowManyInPeriod(front, id, since, p, q);
      if last.urlId == id && since <= last.createdAt {
        HowManyOneMore(InPeriod(front, id, since), last, p);
      } else {
        assert InPeriod(clicks, id, since) == InPeriod(front, id, since);
      }
    }
  }

  lemma {:induction false} VisitorsAre(clicks: seq<Click>, v: string)
    ensures v in Visitors(clicks) <==> exists c :: c in clicks && c.info.visitorHash == Some(v)
  {
    if clicks == [] {
    } else {
      var front, last := clicks[..|clicks| - 1], clicks[|clicks| - 1];
      VisitorsAre(front, v);
      assert forall c :: c in clicks <==> c in front || c == last;
    }
  }

  lemma {:induction false} OnDayMembers(clicks: seq<Click>, day: int)
    ensures forall c :: c in OnDay(clicks, day) <==> c in clicks && c.createdAt / 86400 == day
    ensures day in Days(clicks) <==> exists c :: c in clicks && c.createdAt / 86400 == day
  {
    if clicks == [] {
    } else {
      var front, last := clicks[..|clicks| - 1], clicks[|clicks| - 1];
      OnDayMembers(front, day);
      assert forall c :: c in clicks <==> c in front || c == last;
    }
  }

  lemma {:induction false} OnDaySize(clicks: seq<Click>, day: int, p: Click -> bool)
    requires forall c :: p(c) <==> c.createdAt / 86400 == day
    ensures |OnDay(clicks, day)| == HowMany(clicks, p)
  {
    if clicks == [] {
    } else {
      OnDaySize(clicks[..|clicks| - 1], day, p);
    }
  }

  lemma {:induction false} PeriodMembers(clicks: seq<Click>, id: Id, since: int)
    ensures forall c :: c in InPeriod(clicks, id, since) <==> c in clicks && c.urlId == id && since <= c.createdAt
  {
    if clicks == [] {
    } else {
      var front, last := clicks[..|clicks| - 1], clicks[|clicks| - 1];
      PeriodMembers(front, id, since);
      assert forall c :: c in clicks <==> c in front || c == last;
    }
  }

  /** The unique visitors of a period. */
  lemma {:induction false} VisitorsExactly(clicks: seq<Click>, id: Id, since: int)
    ensures Visitors(InPeriod(clicks, id, since)) == Who(clicks, (c: Click) => Counts(c, id, since))
  {
    hide InPeriod, Visitors;
    var period := InPeriod(clicks, id, since);
    PeriodMembers(clicks, id, since);
    forall v ensures v in Visitors(period) <==> v in Who(clicks, (c: Click) => Counts(c, id, since)) {
      VisitorsAre(period, v);
    }
  }

  lemma {:induction false} DayVisitorsExactly(clicks: seq<Click>, id: Id, since: int, day: int)
    ensures Visitors(OnDay(InPeriod(clicks, id, since), day))
            == Who(clicks, (c: Click) => Counts(c, id, since) && c.createdAt / 86400 == day)
  {
    hide InPeriod, Visitors, OnDay, Days;
    var period := InPeriod(clicks, id, since);
    PeriodMembers(clicks, id, since);
    OnDayMembers(period, day);
    forall v
      ensures v in Visitors(OnDay(period, day)) <==>
              v in Who(clicks, (c: Click) => Counts(c, id, since) && c.createdAt / 86400 == day)
    {
      VisitorsAre(OnDay(period, day), v);
    }
  }

  /** The daily rows: one for each day with a click, in order, with its clicks and its visitors. */
  ghost predicate DailyFor(rows: seq<DailyStat>, clicks: seq<Click>, id: Id, since: int) {
    && (forall i, j :: 0 <= i < j < |rows| ==> rows[i].day < rows[j].day)
    && (forall c :: c in clicks && Counts(c, id, since) ==>
          exists i :: 0 <= i < |rows| && rows[i].day == c.createdAt / 86400)
    && (forall i :: 0 <= i < |rows| ==>
          && rows[i].clicks > 0
          && rows[i].clicks
             == HowMany(clicks, (c: Click) => Counts(c, id, since) && c.createdAt / 86400 == rows[i].day)
          && rows[i].uniqueVisitors
             == |Who(clicks, (c: Click) => Counts(c, id, since) && c.createdAt / 86400 == rows[i].day)|)
  }

  lemma {:induction false} ToDailyRow(clicks: seq<Click>, groups: seq<Group<int>>, i: nat)
    requires i < |groups|
    ensures |ToDaily(clicks, groups)| == |groups|
    ensures ToDaily(clicks, groups)[i]
            == DailyStat(groups[i].0, groups[i].1, |Visitors(OnDay(clicks, groups[i].0))|)
  {
    hide OnDay, Visitors;
    DailyRows(clicks, groups);
    if i == 0 {
    } else {
      ToDailyRow(clicks, groups[1..], i - 1);
    }
  }

  lemma {:induction false} DailyExactly(clicks: seq<Click>, id: Id, since: int)
    ensures var period := InPeriod(clicks, id, since);
      DailyFor(ToDaily(period, DayGroups(period)), clicks, id, since)
  {
    hide InPeriod, OnDay, Days, DayGroups, ToDaily, Visitors, HowMany, Who;
    var period := InPeriod(clicks, id, since);
    var groups := DayGroups(period);
    var rows := ToDaily(period, groups);
    DayGroupsExact(period);
    DailyRows(period, groups);
    PeriodMembers(clicks, id, since);
    forall c | c in clicks && Counts(c, id, since)
      ensures exists i :: 0 <= i < |rows| && rows[i].day == c.createdAt / 86400
    {
      OnDayMembers(period, c.createdAt / 86400);
      var i := LabelIndex(groups, c.createdAt / 86400);
      assert rows[i].day == c.createdAt / 86400;
    }
    forall i | 0 <= i < |rows|
      ensures rows[i].clicks > 0
      ensures rows[i].clicks
              == HowMany(clicks, (c: Click) => Counts(c, id, since) && c.createdAt / 86400 == rows[i].day)
      ensures rows[i].uniqueVisitors
              == |Who(clicks, (c: Click) => Counts(c, id, since) && c.createdAt / 86400 == rows[i].day)|
    {
      var day := groups[i].0;
      ToDailyRow(period, groups, i);
      DayVisitorsExactly(clicks, id, since, day);
      OnDaySize(period, day, (c: Click) => c.createdAt / 86400 == day);
      HowManyInPeriod(clicks, id, since, (c: Click) => c.createdAt / 86400 == day,
                      (c: Click) => Counts(c, id, since) && c.createdAt / 86400 == rows[i].day);
      LabelsMember(groups, i);
      OnDayMembers(period, day);
      var c :| c in period && c.createdAt / 86400 == day;
      assert c in OnDay(period, day);
    }
  }

  lemma {:induction false} LabelsMember<K>(groups: seq<Group<K>>, i: nat)
    requires i < |groups|
    ensures groups[i].0 in Labels(groups)
  {
    if i == 0 {
    } else {
      LabelsMember(groups[1..], i - 1);
    }
  }

  /** The rows of a breakdown by the field `get`, where `total` is the link's click count. */
  ghost predicate BreakdownFor(rows: seq<Breakdown>, clicks: seq<Click>, id: Id, since: int,
                               get: ClientInfo -> Option<string>, total: nat) {
    && |rows| <= 10
    && (forall i, j :: 0 <= i < j < |rows| ==> rows[i].name != rows[j].name && rows[i].count >= rows[j].count)
    && (forall i :: 0 <= i < |rows| ==>
          && rows[i].count > 0
          && rows[i].count == HowMany(clicks, (c: Click) => Counts(c, id, since) && get(c.info) == Some(rows[i].name))
          && Rounded(rows[i].tenths, rows[i].count, total))
    && (forall c :: c in clicks && Counts(c, id, since) && get(c.info).Some? ==>
          Shown(rows, clicks, id, since, get, get(c.info).value))
  }

  /** The label has a row, or there are ten rows and none of them counts fewer clicks. */
  ghost predicate Shown(rows: seq<Breakdown>, clicks: seq<Click>, id: Id, since: int,
                        get: ClientInfo -> Option<string>, name: string) {
    || (exists i :: 0 <= i < |rows| && rows[i].name == name)
    || (|rows| == 10 && forall i :: 0 <= i < |rows| ==>
          rows[i].count >= HowMany(clicks, (c: Click) => Counts(c, id, since) && get(c.info) == Some(name)))
  }

  /** The tenths of a percent nearest to count / total, the even ones of two equally near; none of no total. */
  ghost predicate Rounded(tenths: nat, count: nat, total: nat) {
    if total == 0 then tenths == 0
    else
      var off: int, whole: int := 2 * (1000 * count - total * tenths), total;
      -whole <= off <= whole && (off == whole || off == -whole ==> tenths % 2 == 0)
  }

  lemma {:induction false} TenthsRounded(count: nat, total: nat)
    ensures Rounded(Tenths(count, total), count, total)
  {
    if total == 0 {
    } else {
      var q, r := 1000 * count / total, 1000 * count % total;
      assert 1000 * count == total * q + r;
      assert total * (q + 1) == total * q + total;
    }
  }

  lemma {:induction false} ValueCount(clicks: seq<Click>, dim: Dimension, name: string, p: Click -> bool)
    requires forall c :: p(c) <==> Attribute(c.info, dim) == Some(name)
    ensures multiset(Values(clicks, dim))[name] == HowMany(clicks, p)
  {
    if clicks == [] {
    } else {
      var front, last := clicks[..|clicks| - 1], clicks[|clicks| - 1];
      ValueCount(front, dim, name, p);
      var value := Attribute(last.info, dim);
      if value.Some? {
        assert Values(clicks, dim) == Values(front, dim) + [value.value];
      } else {
        assert Values(clicks, dim) == Values(front, dim);
      }
    }
  }

  lemma {:induction false} LabelCount(clicks: seq<Click>, id: Id, since: int, dim: Dimension,
                                      get: ClientInfo -> Option<string>, name: string)
    requires forall info :: get(info) == Attribute(info, dim)
    ensures multiset(Values(InPeriod(clicks, id, since), dim))[name]
            == HowMany(clicks, (c: Click) => Counts(c, id, since) && get(c.info) == Some(name))
  {
    hide HowMany, Values, InPeriod, Attribute;
    ValueCount(InPeriod(clicks, id, since), dim, name, (c: Click) => get(c.info) == Some(name));
    HowManyInPeriod(clicks, id, since, (c: Click) => get(c.info) == Some(name),
                    (c: Click) => Counts(c, id, since) && get(c.info) == Some(name));
  }

  lemma {:induction false} HowManySome(clicks: seq<Click>, p: Click -> bool, c: Click)
    requires c in clicks && p(c)
    ensures HowMany(clicks, p) > 0
  {
    if c == clicks[|clicks| - 1] {
    } else {
      HowManySome(clicks[..|clicks| - 1], p, c);
    }
  }

  lemma {:induction false} BreakdownExactly(clicks: seq<Click>, id: Id, since: int, dim: Dimension,
                                            get: ClientInfo -> Option<string>, total: nat)
    requires forall info :: get(info) == Attribute(info, dim)
    ensures BreakdownFor(BreakdownOf(InPeriod(clicks, id, since), dim, total), clicks, id, since, get, total)
  {
    hide HowMany, Values, InPeriod, Top, ToBreakdown, Tenths, Rounded, Attribute;
    var period := InPeriod(clicks, id, since);
    var values := Values(period, dim);
    var groups := Top(values, TOP_GROUPS);
    var rows := BreakdownOf(period, dim, total);
    TopShape(values, TOP_GROUPS);
    BreakdownRows(groups, total);
    forall i | 0 <= i < |rows|
      ensures rows[i].count > 0 && Rounded(rows[i].tenths, rows[i].count, total)
      ensures rows[i].count == HowMany(clicks, (c: Click) => Counts(c, id, since) && get(c.info) == Some(rows[i].name))
    {
      LabelCount(clicks, id, since, dim, get, groups[i].0);
      TenthsRounded(groups[i].1, total);
    }
    forall i, j | 0 <= i < j < |rows| ensures rows[i].name != rows[j].name && rows[i].count >= rows[j].count {
      DistinctLabels(groups, i, j);
    }
    forall c | c in clicks && Counts(c, id, since) && get(c.info).Some?
      ensures Shown(rows, clicks, id, since, get, get(c.info).value)
    {
      LabelIsShown(clicks, id, since, dim, get, total, c);
    }
  }

  lemma {:induction false} LabelIsShown(clicks: seq<Click>, id: Id, since: int, dim: Dimension,
                                        get: ClientInfo -> Option<string>, total: nat, c: Click)
    requires forall info :: get(info) == Attribute(info, dim)
    requires c in clicks && Counts(c, id, since) && get(c.info).Some?
    ensures Shown(BreakdownOf(InPeriod(clicks, id, since), dim, total), clicks, id, since, get, get(c.info).value)
  {
    hide Values, InPeriod, BreakdownOf, Attribute, HowMany;
    var name := get(c.info).value;
    var period := InPeriod(clicks, id, since);
    var rows := BreakdownOf(period, dim, total);
    HowManySome(clicks, (x: Click) => Counts(x, id, since) && get(x.info) == Some(name), c);
    LabelCount(clicks, id, since, dim, get, name);
    assert HowMany(clicks, (x: Click) => Counts(x, id, since) && get(x.info) == Some(name)) > 0;
    if forall i :: 0 <= i < |rows| ==> rows[i].name != name {
      NotShown(period, dim, total, name);
      forall i | 0 <= i < |rows| ensures rows[i].count >= multiset(Values(period, dim))[name] {
        BreakdownRanks(period, dim, total, i, name);
      }
    }
  }

  /** A value that occurs is left out only of a full breakdown. */
  lemma {:induction false} NotShown(period: seq<Click>, dim: Dimension, total: nat, name: string)
    requires name in Values(period, dim)
    requires forall i :: 0 <= i < |BreakdownOf(period, dim, total)| ==> BreakdownOf(period, dim, total)[i].name != name
    ensures |BreakdownOf(period, dim, total)| == 10
  {
    hide Tenths, Values, Top;
    var values := Values(period, dim);
    BreakdownRows(Top(values, TOP_GROUPS), total);
    TopNotEmpty(values, TOP_GROUPS);
    BreakdownRanks(period, dim, total, 0, name);
  }

  lemma {:induction false} TopNotEmpty(values: seq<string>, limit: nat)
    requires values != [] && limit > 0
    ensures |Top(values, limit)| > 0
  {
    var before := (a: Group<string>, b: Group<string>) => MoreFrequent(a, b);
    SortKeeps(Tally(values), before, values[0]);
    TallyCounts(values, values[0]);
    hide SortBy, Tally;
  }

  /**
    Every figure of a summary against the raw table: the link's count, the visitors since `days` days ago, the five
    breakdowns by their own fields, and the days.
   */
  lemma {:induction false} SummaryExactly(db: Db, row: Row, days: nat, now: int)
    ensures var s := Summarize(db, row, days, now);
      var since := now - days * 86400;
      && s.shortCode == row.shortCode && s.totalClicks == row.clickCount && s.periodDays == days
      && s.uniqueVisitors == |Who(db.clicks, (c: Click) => Counts(c, row.id, since))|
      && BreakdownFor(s.countries, db.clicks, row.id, since, (i: ClientInfo) => i.country, row.clickCount)
      && BreakdownFor(s.browsers, db.clicks, row.id, since, (i: ClientInfo) => i.browser, row.clickCount)
      && BreakdownFor(s.oses, db.clicks, row.id, since, (i: ClientInfo) => i.os, row.clickCount)
      && BreakdownFor(s.devices, db.clicks, row.id, since, (i: ClientInfo) => i.device, row.clickCount)
      && BreakdownFor(s.referrers, db.clicks, row.id, since, (i: ClientInfo) => i.referrer, row.clickCount)
      && DailyFor(s.daily, db.clicks, row.id, since)
  {
    hide InPeriod, BreakdownOf, BreakdownFor, ToDaily, DayGroups, DailyFor, Visitors, Who;
    var since := now - days * 86400;
    VisitorsExactly(db.clicks, row.id, since);
    BreakdownExactly(db.clicks, row.id, since, Country, (i: ClientInfo) => i.country, row.clickCount);
    BreakdownExactly(db.clicks, row.id, since, Browser, (i: ClientInfo) => i.browser, row.clickCount);
    BreakdownExactly(db.clicks, row.id, since, Os, (i: ClientInfo) => i.os, row.clickCount);
    BreakdownExactly(db.clicks, row.id, since, Device, (i: ClientInfo) => i.device, row.clickCount);
    BreakdownExactly(db.clicks, row.id, since, Referrer, (i: ClientInfo) => i.referrer, row.clickCount);
    DailyExactly(db.clicks, row.id, since);
  }

  // ---------------------------------------------------------------------------------------------------------------
  // A summary whose queries each see a later database
  // ---------------------------------------------------------------------------------------------------------------

  /** The queries of a summary, in order: the row, the visitors, the five dimensions, the days. */
  const QUERIES := 8

  /** Batches may commit between the queries; they only append events. */
  ghost predicate Growing(views: seq<Db>) {
    |views| == QUERIES && forall i, j :: 0 <= i <= j < |views| ==> views[i].clicks <= views[j].clicks
  }

  function DailyOf(period: seq<Click>): seq<DailyStat> {
    ToDaily(period, DayGroups(period))
  }

  function SummarizeAcross(views: seq<Db>, row: Row, days: nat, now: int): Summary
    requires |views| == QUERIES
  {
    var since := now - days * DAY;
    Summary(row.shortCode, row.clickCount, |Visitors(InPeriod(views[1].clicks, row.id, since))|,
            BreakdownOf(InPeriod(views[2].clicks, row.id, since), Country, row.clickCount),
            BreakdownOf(InPeriod(views[3].clicks, row.id, since), Browser, row.clickCount),
            BreakdownOf(InPeriod(views[4].clicks, row.id, since), Os, row.clickCount),
            BreakdownOf(InPeriod(views[5].clicks, row.id, since), Device, row.clickCount),
            BreakdownOf(InPeriod(views[6].clicks, row.id, since), Referrer, row.clickCount),
            DailyOf(InPeriod(views[7].clicks, row.id, since)),
            days)
  }

  /** Appended events only add to a period, to its visitors and to a count. */
  lemma {:induction false} LaterRead(early: seq<Click>, late: seq<Click>, id: Id, since: int)
    requires early <= late
    ensures CountFor(early, id) <= CountFor(late, id)
    ensures Visitors(InPeriod(early, id, since)) <= Visitors(InPeriod(late, id, since))
    ensures CountFor(early, id) == CountFor(late, id) ==> InPeriod(early, id, since) == InPeriod(late, id, since)
  {
    if early == late {
    } else {
      LaterRead(early, late[..|late| - 1], id, since);
      var front, last := InPeriod(late[..|late| - 1], id, since), late[|late| - 1];
      assert (front + [last])[..|front|] == front;
      assert Visitors(front) <= Visitors(front + [last]);
      if last.urlId == id && last.createdAt >= since {
        assert InPeriod(late, id, since) == front + [last];
      } else {
        assert InPeriod(late, id, since) == front;
      }
    }
  }

  /**
    Whatever commits between the queries, unique visitors, summed daily uniques and summed daily clicks stay in order,
    and the days exceed the total by no more clicks than landed. If none landed the summary is that of one snapshot, and
    in order. When the period covers every click, that is the only case.
   */
  lemma {:induction false} SummaryAcrossReads(views: seq<Db>, id: Id, days: nat, now: int)
    requires Growing(views) && CountersExact(views[0]) && id in views[0].urls && views[0].urls[id].id == id
    ensures var s := SummarizeAcross(views, views[0].urls[id], days, now);
      var landed := CountFor(views[7].clicks, id) - CountFor(views[0].clicks, id);
      && s.uniqueVisitors <= SumUnique(s.daily) <= SumClicks(s.daily) <= s.totalClicks + landed
      && (landed == 0 ==> s == Summarize(views[0], views[0].urls[id], days, now) && SummaryOk(s))
      && (|InPeriod(views[7].clicks, id, now - days * DAY)| == CountFor(views[7].clicks, id) ==>
            (SummaryOk(s) <==> landed == 0))
  {
    hide InPeriod, BreakdownOf, BreakdownOk, ToDaily, DayGroups, Visitors, SumUnique, SumClicks, CountFor;
    var since := now - days * DAY;
    forall i | 0 <= i < QUERIES
      ensures CountFor(views[0].clicks, id) <= CountFor(views[i].clicks, id) <= CountFor(views[7].clicks, id)
      ensures CountFor(views[0].clicks, id) == CountFor(views[i].clicks, id) ==>
                InPeriod(views[0].clicks, id, since) == InPeriod(views[i].clicks, id, since)
    {
      LaterRead(views[0].clicks, views[i].clicks, id, since);
      LaterRead(views[i].clicks, views[7].clicks, id, since);
    }
    LaterRead(views[1].clicks, views[7].clicks, id, since);
    var early, late := Visitors(InPeriod(views[1].clicks, id, since)), Visitors(InPeriod(views[7].clicks, id, since));
    assert late == early + (late - early);
    DailyChain(InPeriod(views[7].clicks, id, since));
    PeriodBounded(views[7].clicks, id, since);
    FreshSummaryOk(views[0], id, days, now);
  }

  // ---------------------------------------------------------------------------------------------------------------
  // The service object
  // ---------------------------------------------------------------------------------------------------------------

  datatype SummaryError = NotFound | MultipleRows

  datatype CachedSummary = CachedSummary(summary: Summary, deadline: int)

  function FindByShortCode(rows: Rows, code: string): Lookup {
    OneOrNone(rows, set id | id in rows && rows[id].shortCode == code)
  }

  lemma {:induction false} FoundByShortCode(rows: Rows, code: string)
    requires WellFormed(rows)
    ensures match FindByShortCode(rows, code)
      case Found(row) => row.id in rows && rows[row.id] == row && row.shortCode == code
      case Missing => forall id :: id in rows ==> rows[id].shortCode != code
      case Ambiguous => false
  {
    var ids := set id | id in rows && rows[id].shortCode == code;
    if id :| id in ids {
      OnlyMatch(rows, ids, id);
    } else {
      assert forall id :: id in rows ==> id !in ids;
    }
  }

  class AnalyticsService {
    const db: Database
    /** The keys analytics:summary:{code}. The period is not part of the key. */
    var summaries: map<string, CachedSummary>

    constructor (db: Database)
      ensures this.db == db && summaries == map[]
    {
      this.db, summaries := db, map[];
    }

    ghost function State(): Db
      reads this, db
    {
      Db(db.urls, db.clicks)
    }

    ghost predicate CacheOk()
      reads this
    {
      forall code :: code in summaries ==> SummaryOk(summaries[code].summary)
    }

    /** On exact counters every summary served is in order, from the cache for whatever period or fresh. */
    method GetSummary(code: string, days: nat, now: int) returns (r: Result<Summary, SummaryError>)
      modifies this
      ensures old(code in summaries && now < summaries[code].deadline) ==>
                r == Ok(old(summaries)[code].summary) && summaries == old(summaries)
      ensures !old(code in summaries && now < summaries[code].deadline) ==>
                match FindByShortCode(db.urls, code)
                case Missing => r == Err(NotFound) && summaries == old(summaries)
                case Ambiguous => r == Err(MultipleRows) && summaries == old(summaries)
                case Found(row) =>
                  && r == Ok(Summarize(State(), row, days, now))
                  && summaries == old(summaries)[code := CachedSummary(r.value, now + 300)]
      ensures WellFormed(db.urls) && CountersExact(State()) && old(CacheOk()) ==>
                CacheOk() && r != Err(MultipleRows) && (r.Ok? ==> SummaryOk(r.value))
    {
      hide SummaryOk, Summarize, WellFormed, CountersExact, FindByShortCode;
      if code in summaries && now < summaries[code].deadline {
        return Ok(summaries[code].summary);
      }
      if WellFormed(db.urls) {
        FoundByShortCode(db.urls, code);
      }
      match FindByShortCode(db.urls, code) {
        case Missing => return Err(NotFound);
        case Ambiguous => return Err(MultipleRows);
        case Found(row) =>
          var summary := Summarize(Db(db.urls, db.clicks), row, days, now);
          if WellFormed(db.urls) && CountersExact(State()) {
            RowIdsMatch(db.urls, row);
            FreshSummaryOk(State(), row.id, days, now);
          }
          summaries := summaries[code := CachedSummary(summary, now + SUMMARY_TTL)];
          return Ok(summary);
      }
    }
  }

  lemma {:induction false} RowIdsMatch(rows: Rows, row: Row)
    requires WellFormed(rows) && row.id in rows && rows[row.id] == row
    ensures rows[row.id].id == row.id
  {
  }
}
