/** The caregiver's communication-patterns screen: the look-back window
    chosen by the time-range selector, the user filter, the four log
    queries, and the folds that turn the fetched logs into emotion counts,
    per-day activity buckets and the five busiest hours. */
module CommunicationPatterns {
  import opened Wrappers
  import opened Clock
  import opened Records
  import opened Seqs
  import opened Tally
  import opened Ranking

  /** `'7d'` is 7 days, `'30d'` is 30, anything else 90. */
  function RangeDays(timeRange: string): (days: nat)
    ensures days == 7 <==> timeRange == "7d"
    ensures days == 30 <==> timeRange == "30d"
    ensures days == 90 <==> timeRange != "7d" && timeRange != "30d"
  {
    if timeRange == "7d" then 7 else if timeRange == "30d" then 30 else 90
  }

  /** A closed interval of instants, `[start, end]`. */
  datatype Window = Window(start: int, end: int)

  /** `endDate = now`; `startDate.setDate(endDate.getDate() - days)`, taken
      without a daylight-saving change in between. */
  function QueryWindow(now: int, timeRange: string): (w: Window)
    ensures w.end == now
    ensures w.start < w.end
    ensures w.end - w.start == RangeDays(timeRange) * DayMs
  {
    Window(now - RangeDays(timeRange) * DayMs, now)
  }

  /** The `.in('user_id', ids).gte(col, start).lte(col, end)` filter. */
  predicate InScope(ids: seq<string>, w: Window, userId: string, t: Option<int>)
  {
    userId in ids && Between(t, w.start, w.end)
  }

  /** `'all'` picks every related user (or none when the relationship
      query returned nothing); any other value picks exactly that id. */
  function SelectUserIds(selectedUser: string, relationships: Option<seq<CaregiverRelationship>>)
    : (ids: seq<string>)
    ensures selectedUser != "all" ==> ids == [selectedUser]
    ensures selectedUser == "all" && relationships.None? ==> ids == []
    ensures selectedUser == "all" && relationships.Some? ==>
              |ids| == |relationships.value|
              && forall i :: 0 <= i < |ids| ==> ids[i] == relationships.value[i].userId
  {
    if selectedUser == "all" then
      match relationships
      case None => []
      case Some(rels) => seq(|rels|, i requires 0 <= i < |rels| => rels[i].userId)
    else [selectedUser]
  }

  datatype CommunicationData = CommunicationData(
    aacUsage: seq<AacUsageLog>,
    emotionLogs: seq<EmotionLog>,
    routineCompletions: seq<RoutineCompletion>,
    activityLogs: seq<ActivityLog>)

  /** `fetchCommunicationData`: nothing is fetched (`None`) without a
      signed-in caregiver or when the user filter is empty; otherwise each
      log is the rows of the selected users inside the closed window, each
      as often as the table holds it, with `null` data read as an empty
      list. */
  function FetchCommunicationData(
    user: Option<string>, role: Option<Role>, db: Database,
    selectedUser: string, timeRange: string, now: int)
    : (r: Option<CommunicationData>)
    ensures user.None? || role != Some(Caregiver) ==> r.None?
    ensures r.Some? ==> user.Some? && role == Some(Caregiver)
    ensures r.Some? ==>
      var ids := SelectUserIds(selectedUser, Select(db.caregiverRelationships,
                   (c: CaregiverRelationship) => c.caregiverId == user.value));
      var w := QueryWindow(now, timeRange);
      && ids != []
      && (forall i :: 0 <= i < |r.value.aacUsage| ==>
            InScope(ids, w, r.value.aacUsage[i].userId, r.value.aacUsage[i].usedAt))
      && (forall i :: 0 <= i < |r.value.emotionLogs| ==>
            InScope(ids, w, r.value.emotionLogs[i].userId, r.value.emotionLogs[i].loggedAt))
      && (forall i :: 0 <= i < |r.value.routineCompletions| ==>
            InScope(ids, w, r.value.routineCompletions[i].userId, r.value.routineCompletions[i].completedAt))
      && (forall i :: 0 <= i < |r.value.activityLogs| ==>
            InScope(ids, w, r.value.activityLogs[i].userId, Some(r.value.activityLogs[i].createdAt)))
      && (db.activityLogs.Some? ==>
            (forall i :: 0 <= i < |db.activityLogs.value|
               && InScope(ids, w, db.activityLogs.value[i].userId, Some(db.activityLogs.value[i].createdAt))
               ==> db.activityLogs.value[i] in r.value.activityLogs))
      && (db.emotionLogs.Some? ==>
            (forall i :: 0 <= i < |db.emotionLogs.value|
               && InScope(ids, w, db.emotionLogs.value[i].userId, db.emotionLogs.value[i].loggedAt)
               ==> db.emotionLogs.value[i] in r.value.emotionLogs))
      && (db.aacUsageLogs.Some? ==>
            (forall i :: 0 <= i < |db.aacUsageLogs.value|
               && InScope(ids, w, db.aacUsageLogs.value[i].userId, db.aacUsageLogs.value[i].usedAt)
               ==> db.aacUsageLogs.value[i] in r.value.aacUsage))
      && (db.routineCompletions.Some? ==>
            (forall i :: 0 <= i < |db.routineCompletions.value|
               && InScope(ids, w, db.routineCompletions.value[i].userId, db.routineCompletions.value[i].completedAt)
               ==> db.routineCompletions.value[i] in r.value.routineCompletions))
      && (db.aacUsageLogs.None? ==> r.value.aacUsage == [])
      && (db.emotionLogs.None? ==> r.value.emotionLogs == [])
      && (db.routineCompletions.None? ==> r.value.routineCompletions == [])
      && (db.activityLogs.None? ==> r.value.activityLogs == [])
    ensures r.None? && user.Some? && role == Some(Caregiver) ==>
      SelectUserIds(selectedUser, Select(db.caregiverRelationships,
        (c: CaregiverRelationship) => c.caregiverId == user.value)) == []
  {
    if user.None? || role != Some(Caregiver) then None
    else
      var uid := user.value;
      var relationships := Select(db.caregiverRelationships,
        (c: CaregiverRelationship) => c.caregiverId == uid);
      var w := QueryWindow(now, timeRange);
      var ids := SelectUserIds(selectedUser, relationships);
      if |ids| == 0 then None
      else
        var aac := Select(db.aacUsageLogs, (u: AacUsageLog) => InScope(ids, w, u.userId, u.usedAt));
        var emotions := Select(db.emotionLogs, (e: EmotionLog) => InScope(ids, w, e.userId, e.loggedAt));
        var completions := Select(db.routineCompletions,
          (c: RoutineCompletion) => InScope(ids, w, c.userId, c.completedAt));
        var activities := Select(db.activityLogs,
          (a: ActivityLog) => InScope(ids, w, a.userId, Some(a.createdAt)));
        Some(CommunicationData(aac.GetOr([]), emotions.GetOr([]), completions.GetOr([]), activities.GetOr([])))
  }

  /** Each fetched log holds every in-scope row exactly as often as its
      table does, and nothing else: the lengths the screen shows are the
      numbers of in-scope rows. */
  lemma FetchedMultiplicity(
    user: Option<string>, role: Option<Role>, db: Database,
    selectedUser: string, timeRange: string, now: int)
    ensures var r := FetchCommunicationData(user, role, db, selectedUser, timeRange, now);
      r.Some? ==>
      var ids := SelectUserIds(selectedUser, Select(db.caregiverRelationships,
                   (c: CaregiverRelationship) => c.caregiverId == user.value));
      var w := QueryWindow(now, timeRange);
      && (db.aacUsageLogs.Some? ==>
            forall x :: multiset(r.value.aacUsage)[x]
              == if InScope(ids, w, x.userId, x.usedAt) then multiset(db.aacUsageLogs.value)[x] else 0)
      && (db.emotionLogs.Some? ==>
            forall x :: multiset(r.value.emotionLogs)[x]
              == if InScope(ids, w, x.userId, x.loggedAt) then multiset(db.emotionLogs.value)[x] else 0)
      && (db.routineCompletions.Some? ==>
            forall x :: multiset(r.value.routineCompletions)[x]
              == if InScope(ids, w, x.userId, x.completedAt) then multiset(db.routineCompletions.value)[x] else 0)
      && (db.activityLogs.Some? ==>
            forall x :: multiset(r.value.activityLogs)[x]
              == if InScope(ids, w, x.userId, Some(x.createdAt)) then multiset(db.activityLogs.value)[x] else 0)
  {
  }

  // ---------------------------------------------------------------------
  // processAnalytics

  /** Trends are not computed: every entry is `Stable`. */
  datatype Trend = Up | Down | Stable

  datatype EmotionTrend = EmotionTrend(emotion: string, count: nat, trend: Trend)

  /** `date` is the UTC day number, standing for the `YYYY-MM-DD` date part
      of `toISOString()`. */
  datatype DayActivity = DayActivity(date: int, activities: nat)

  datatype HourActivity = HourActivity(hour: int, activities: nat)

  /** `mostUsedPhrases` is a fixed placeholder and is not modelled. */
  datatype Analytics = Analytics(
    emotionTrends: seq<EmotionTrend>, dailyActivity: seq<DayActivity>, peakHours: seq<HourActivity>)

  function EmotionLabels(logs: seq<EmotionLog>): (labels: seq<string>)
    ensures |labels| == |logs|
    ensures forall i :: 0 <= i < |logs| ==> labels[i] == logs[i].emotion
  {
    seq(|logs|, i requires 0 <= i < |logs| => logs[i].emotion)
  }

  function UtcDays(logs: seq<ActivityLog>): (days: seq<int>)
    ensures |days| == |logs|
    ensures forall i :: 0 <= i < |logs| ==> days[i] == DayNumber(logs[i].createdAt, 0)
  {
    seq(|logs|, i requires 0 <= i < |logs| => DayNumber(logs[i].createdAt, 0))
  }

  function LocalHours(logs: seq<ActivityLog>, offset: int): (hours: seq<int>)
    ensures |hours| == |logs|
    ensures forall i :: 0 <= i < |logs| ==> hours[i] == HourOfDay(logs[i].createdAt, offset)
  {
    seq(|logs|, i requires 0 <= i < |logs| => HourOfDay(logs[i].createdAt, offset))
  }

  /** `emotionCounts` reduced into a record, then `Object.entries(...)` mapped
      to trends; entries come in insertion order. */
  function EmotionTrends(logs: seq<EmotionLog>): seq<EmotionTrend>
  {
    var es := TallyOf(EmotionLabels(logs));
    seq(|es|, i requires 0 <= i < |es| => EmotionTrend(es[i].key, es[i].count, Stable))
  }

  /** The `dailyActivity` reduce: find the bucket for the log's date and
      increment it, or push a new bucket. */
  function DailyActivity(logs: seq<ActivityLog>): seq<DayActivity>
  {
    var es := TallyOf(UtcDays(logs));
    seq(|es|, i requires 0 <= i < |es| => DayActivity(es[i].key, es[i].count))
  }

  /** The `hourCounts` reduce: `acc[hour] = (acc[hour] || 0) + 1`. */
  function HourCounts(hours: seq<int>): (m: map<int, nat>)
    ensures forall h :: h in m <==> h in hours
    ensures forall h :: h in m ==> m[h] == Occurrences(hours, h)
    ensures |m| <= |hours|
  {
    if |hours| == 0 then map[]
    else
      var p := hours[..|hours| - 1];
      var h := hours[|hours| - 1];
      var m := HourCounts(p);
      assert hours == p + [h];
      forall x ensures Occurrences(hours, x) == Occurrences(p, x) + (if x == h then 1 else 0) {
        OccurrencesAppend(p, [h], x);
      }
      m[h := (if h in m then m[h] else 0) + 1]
  }

  /** `Object.entries(hourCounts)` on integer keys from `from` up: ascending
      key order, `parseInt` giving back the hour. */
  function HourEntries(m: map<int, nat>, from: nat): (es: seq<HourActivity>)
    ensures forall i :: 0 <= i < |es| ==> from <= es[i].hour < 24 && es[i].hour in m && es[i].activities == m[es[i].hour]
    decreases 24 - from
  {
    if from >= 24 then []
    else (if from in m then [HourActivity(from, m[from])] else []) + HourEntries(m, from + 1)
  }

  /** The hours come out in strictly ascending order. */
  lemma {:induction false} HourEntriesAscending(m: map<int, nat>, from: nat)
    ensures StrictlyAscending(HourEntries(m, from), HourOf)
    decreases 24 - from
  {
    if from < 24 {
      HourEntriesAscending(m, from + 1);
    }
  }

  /** Every key of the map in `[from, 24)` comes out. */
  lemma {:induction false} HourEntriesCover(m: map<int, nat>, from: nat)
    ensures forall h :: from <= h < 24 && h in m ==> HasHour(HourEntries(m, from), h)
    decreases 24 - from
  {
    if from < 24 {
      HourEntriesCover(m, from + 1);
      var rest := HourEntries(m, from + 1);
      var head := if from in m then [HourActivity(from, m[from])] else [];
      var es := HourEntries(m, from);
      assert es == head + rest;
      forall h | from <= h < 24 && h in m ensures HasHour(es, h) {
        if h == from {
          assert es[0].hour == h;
        } else {
          var i :| 0 <= i < |rest| && rest[i].hour == h;
          assert es[|head| + i].hour == h;
        }
      }
    }
  }

  function ActivitiesOf(e: HourActivity): int { e.activities }

  function HourOf(e: HourActivity): int { e.hour }

  /** `Object.entries(hourCounts)`, sorted by `b.activities - a.activities`,
      then `.slice(0, 5)`. */
  function PeakHours(logs: seq<ActivityLog>, offset: int): seq<HourActivity>
  {
    TopHours(LocalHours(logs, offset))
  }

  /** `processAnalytics`: emotion counts from the emotion logs; daily buckets
      (UTC dates) and peak hours (local hours) from the activity logs. */
  function ProcessAnalytics(data: CommunicationData, offset: int): (a: Analytics)
    ensures |a.emotionTrends| <= |data.emotionLogs|
    ensures |a.dailyActivity| <= |data.activityLogs|
    ensures |a.peakHours| <= 5 && |a.peakHours| <= |data.activityLogs|
  {
    EmotionTrendsSpec(data.emotionLogs);
    DailyActivitySpec(data.activityLogs);
    PeakHoursSpec(data.activityLogs, offset);
    Analytics(EmotionTrends(data.emotionLogs), DailyActivity(data.activityLogs), PeakHours(data.activityLogs, offset))
  }

  // ---------------------------------------------------------------------
  // Properties of the folds

  /** Number of emotion logs carrying `label`. */
  function LabelCount(logs: seq<EmotionLog>, emotion: string): nat
  {
    Occurrences(EmotionLabels(logs), emotion)
  }

  function TrendTotal(ts: seq<EmotionTrend>): nat
  {
    if |ts| == 0 then 0 else ts[0].count + TrendTotal(ts[1..])
  }

  function DayTotal(ds: seq<DayActivity>): nat
  {
    if |ds| == 0 then 0 else ds[0].activities + DayTotal(ds[1..])
  }

  lemma {:induction false} TrendTotalIsSum(es: seq<Entry<string>>)
    ensures TrendTotal(seq(|es|, i requires 0 <= i < |es| => EmotionTrend(es[i].key, es[i].count, Stable)))
            == Sum(Counts(es))
  {
    var ts := seq(|es|, i requires 0 <= i < |es| => EmotionTrend(es[i].key, es[i].count, Stable));
    if |es| > 0 {
      var tail := es[1..];
      TrendTotalIsSum(tail);
      assert ts[1..] == seq(|tail|, i requires 0 <= i < |tail| => EmotionTrend(tail[i].key, tail[i].count, Stable));
    }
  }

  lemma {:induction false} DayTotalIsSum(es: seq<Entry<int>>)
    ensures DayTotal(seq(|es|, i requires 0 <= i < |es| => DayActivity(es[i].key, es[i].count))) == Sum(Counts(es))
  {
    var ds := seq(|es|, i requires 0 <= i < |es| => DayActivity(es[i].key, es[i].count));
    if |es| > 0 {
      var tail := es[1..];
      DayTotalIsSum(tail);
      assert ds[1..] == seq(|tail|, i requires 0 <= i < |tail| => DayActivity(tail[i].key, tail[i].count));
    }
  }

  /** No emotion has two trends. */
  ghost predicate DistinctEmotions(ts: seq<EmotionTrend>)
  {
    forall i, j :: 0 <= i < j < |ts| ==> ts[i].emotion != ts[j].emotion
  }

  /** Each trend counts exactly the logs carrying its emotion (so at least
      one) and is `Stable`. */
  ghost predicate TrueEmotionCounts(ts: seq<EmotionTrend>, logs: seq<EmotionLog>)
  {
    forall i :: 0 <= i < |ts| ==>
      ts[i].emotion in EmotionLabels(logs) && ts[i].count == LabelCount(logs, ts[i].emotion) >= 1
      && ts[i].trend == Stable
  }

  /** Every logged emotion has a trend. */
  ghost predicate EveryEmotionListed(ts: seq<EmotionTrend>, logs: seq<EmotionLog>)
  {
    forall k :: 0 <= k < |logs| ==> exists i :: 0 <= i < |ts| && ts[i].emotion == logs[k].emotion
  }

  /** Trends are ordered by where their emotion first occurs in the logs. */
  ghost predicate EmotionArrivalOrder(ts: seq<EmotionTrend>, logs: seq<EmotionLog>)
  {
    forall i, j :: 0 <= i < j < |ts| ==>
      ts[i].emotion in EmotionLabels(logs) && ts[j].emotion in EmotionLabels(logs)
      && FirstIndex(EmotionLabels(logs), ts[i].emotion) < FirstIndex(EmotionLabels(logs), ts[j].emotion)
  }

  lemma EmotionTrendsCounts(logs: seq<EmotionLog>)
    ensures DistinctEmotions(EmotionTrends(logs))
    ensures TrueEmotionCounts(EmotionTrends(logs), logs)
  {
    TallyOfSpec(EmotionLabels(logs));
  }

  lemma EmotionTrendsCover(logs: seq<EmotionLog>)
    ensures EveryEmotionListed(EmotionTrends(logs), logs)
  {
    var labels := EmotionLabels(logs);
    var es := TallyOf(labels);
    var ts := EmotionTrends(logs);
    TallyOfSpec(labels);
    forall k | 0 <= k < |logs| ensures exists i :: 0 <= i < |ts| && ts[i].emotion == logs[k].emotion {
      assert labels[k] in labels;
      var i :| 0 <= i < |es| && es[i].key == labels[k];
      assert ts[i].emotion == logs[k].emotion;
    }
  }

  lemma EmotionTrendsOrder(logs: seq<EmotionLog>)
    ensures EmotionArrivalOrder(EmotionTrends(logs), logs)
  {
    TallyOfSpec(EmotionLabels(logs));
  }

  lemma EmotionTrendsTotal(logs: seq<EmotionLog>)
    ensures TrendTotal(EmotionTrends(logs)) == |logs|
    ensures |EmotionTrends(logs)| <= |logs|
  {
    var es := TallyOf(EmotionLabels(logs));
    TallyOfSpec(EmotionLabels(logs));
    TrendTotalIsSum(es);
    SumCountsAtLeastLength(es);
  }

  /** One trend per distinct emotion, in order of first appearance, each
      counting exactly the logs with that emotion (so at least 1), all
      `Stable`, together counting every log. */
  lemma EmotionTrendsSpec(logs: seq<EmotionLog>)
    ensures |EmotionTrends(logs)| <= |logs|
    ensures DistinctEmotions(EmotionTrends(logs))
    ensures TrueEmotionCounts(EmotionTrends(logs), logs)
    ensures EveryEmotionListed(EmotionTrends(logs), logs)
    ensures EmotionArrivalOrder(EmotionTrends(logs), logs)
    ensures TrendTotal(EmotionTrends(logs)) == |logs|
  {
    EmotionTrendsCounts(logs);
    EmotionTrendsCover(logs);
    EmotionTrendsOrder(logs);
    EmotionTrendsTotal(logs);
  }

  lemma {:induction false} SumCountsAtLeastLength<K>(es: seq<Entry<K>>)
    requires forall i :: 0 <= i < |es| ==> es[i].count >= 1
    ensures Sum(Counts(es)) >= |es|
  {
    if |es| > 0 {
      SumCountsAtLeastLength(es[1..]);
    }
  }

  /** No date has two buckets. */
  ghost predicate DistinctDates(ds: seq<DayActivity>)
  {
    forall i, j :: 0 <= i < j < |ds| ==> ds[i].date != ds[j].date
  }

  /** Each bucket counts exactly the logs on its UTC date (so at least one). */
  ghost predicate TrueDayCounts(ds: seq<DayActivity>, logs: seq<ActivityLog>)
  {
    forall i :: 0 <= i < |ds| ==>
      ds[i].date in UtcDays(logs) && ds[i].activities == Occurrences(UtcDays(logs), ds[i].date) >= 1
  }

  /** Every log's date has a bucket. */
  ghost predicate EveryDateListed(ds: seq<DayActivity>, logs: seq<ActivityLog>)
  {
    forall k :: 0 <= k < |logs| ==> exists i :: 0 <= i < |ds| && ds[i].date == DayNumber(logs[k].createdAt, 0)
  }

  /** Buckets are ordered by where their date first occurs in the logs. */
  ghost predicate DayArrivalOrder(ds: seq<DayActivity>, logs: seq<ActivityLog>)
  {
    forall i, j :: 0 <= i < j < |ds| ==>
      ds[i].date in UtcDays(logs) && ds[j].date in UtcDays(logs)
      && FirstIndex(UtcDays(logs), ds[i].date) < FirstIndex(UtcDays(logs), ds[j].date)
  }

  lemma DailyActivityCounts(logs: seq<ActivityLog>)
    ensures DistinctDates(DailyActivity(logs))
    ensures TrueDayCounts(DailyActivity(logs), logs)
  {
    TallyOfSpec(UtcDays(logs));
  }

  lemma DailyActivityCover(logs: seq<ActivityLog>)
    ensures EveryDateListed(DailyActivity(logs), logs)
  {
    var days := UtcDays(logs);
    var es := TallyOf(days);
    var ds := DailyActivity(logs);
    TallyOfSpec(days);
    forall k | 0 <= k < |logs| ensures exists i :: 0 <= i < |ds| && ds[i].date == DayNumber(logs[k].createdAt, 0) {
      assert days[k] in days;
      var i :| 0 <= i < |es| && es[i].key == days[k];
      assert ds[i].date == days[k];
    }
  }

  lemma DailyActivityOrder(logs: seq<ActivityLog>)
    ensures DayArrivalOrder(DailyActivity(logs), logs)
  {
    TallyOfSpec(UtcDays(logs));
  }

  lemma DailyActivityTotal(logs: seq<ActivityLog>)
    ensures DayTotal(DailyActivity(logs)) == |logs|
    ensures |DailyActivity(logs)| <= |logs|
  {
    var es := TallyOf(UtcDays(logs));
    TallyOfSpec(UtcDays(logs));
    DayTotalIsSum(es);
    SumCountsAtLeastLength(es);
  }

  /** One bucket per distinct UTC date, in order of first appearance (not
      sorted by date), each counting exactly the logs on that date (so at
      least 1), together counting every log. */
  lemma DailyActivitySpec(logs: seq<ActivityLog>)
    ensures |DailyActivity(logs)| <= |logs|
    ensures DistinctDates(DailyActivity(logs))
    ensures TrueDayCounts(DailyActivity(logs), logs)
    ensures EveryDateListed(DailyActivity(logs), logs)
    ensures DayArrivalOrder(DailyActivity(logs), logs)
    ensures DayTotal(DailyActivity(logs)) == |logs|
  {
    DailyActivityCounts(logs);
    DailyActivityCover(logs);
    DailyActivityOrder(logs);
    DailyActivityTotal(logs);
  }

  /** The peak-hour list has `hour` among its entries. */
  predicate HasHour(ps: seq<HourActivity>, hour: int)
  {
    exists i :: 0 <= i < |ps| && ps[i].hour == hour
  }

  /** Every entry of the hour table is an hour with its true count. */
  ghost predicate TrueCounts(ps: seq<HourActivity>, hours: seq<int>)
  {
    forall i :: 0 <= i < |ps| ==> 0 <= ps[i].hour < 24 && ps[i].activities == Occurrences(hours, ps[i].hour) >= 1
  }

  lemma HourTable(hours: seq<int>)
    requires forall i :: 0 <= i < |hours| ==> 0 <= hours[i] < 24
    ensures TrueCounts(HourEntries(HourCounts(hours), 0), hours)
    ensures StrictlyAscending(HourEntries(HourCounts(hours), 0), HourOf)
    ensures forall h :: h in hours ==> HasHour(HourEntries(HourCounts(hours), 0), h)
  {
    var m := HourCounts(hours);
    var es := HourEntries(m, 0);
    HourEntriesAscending(m, 0);
    HourEntriesCover(m, 0);
    forall i | 0 <= i < |es|
      ensures 0 <= es[i].hour < 24 && es[i].activities == Occurrences(hours, es[i].hour) >= 1
    {
      assert es[i].hour in m;
    }
    forall h | h in hours ensures HasHour(es, h) {
      var k :| 0 <= k < |hours| && hours[k] == h;
      assert 0 <= h < 24 && h in m;
    }
  }

  lemma TrueCountsSorted(es: seq<HourActivity>, hours: seq<int>)
    requires TrueCounts(es, hours)
    ensures TrueCounts(SortDesc(es, ActivitiesOf), hours)
  {
    var sorted := SortDesc(es, ActivitiesOf);
    SortDescSpec(es, ActivitiesOf);
    forall i | 0 <= i < |sorted|
      ensures 0 <= sorted[i].hour < 24 && sorted[i].activities == Occurrences(hours, sorted[i].hour) >= 1
    {
      assert sorted[i] in multiset(es);
    }
  }

  /** A hour dropped by the cut to five is no busier than the fifth. */
  lemma OmittedHour(es: seq<HourActivity>, h: int)
    requires HasHour(es, h)
    requires !HasHour(Take(SortDesc(es, ActivitiesOf), 5), h)
    ensures |Take(SortDesc(es, ActivitiesOf), 5)| == 5
    ensures exists j :: 5 <= j < |es| && SortDesc(es, ActivitiesOf)[j].hour == h
  {
    var sorted := SortDesc(es, ActivitiesOf);
    var ps := Take(sorted, 5);
    SortDescSpec(es, ActivitiesOf);
    var i :| 0 <= i < |es| && es[i].hour == h;
    assert es[i] in multiset(sorted);
    var j :| 0 <= j < |sorted| && sorted[j] == es[i];
    assert forall k :: 0 <= k < |ps| ==> ps[k] == sorted[k];
    assert 5 <= j;
  }

  /** Every hour with activity that the list leaves out has no more
      activity than the list's fifth (and last) entry. */
  ghost predicate OmittedNoBusier(ps: seq<HourActivity>, hours: seq<int>)
  {
    forall h :: h in hours && !HasHour(ps, h) ==> |ps| == 5 && Occurrences(hours, h) <= ps[4].activities
  }

  /** The top-five table computed from a list of hours. */
  function TopHours(hours: seq<int>): seq<HourActivity>
  {
    Take(SortDesc(HourEntries(HourCounts(hours), 0), ActivitiesOf), 5)
  }

  lemma TopHoursOmitted(hours: seq<int>)
    requires forall i :: 0 <= i < |hours| ==> 0 <= hours[i] < 24
    ensures OmittedNoBusier(TopHours(hours), hours)
  {
    var es := HourEntries(HourCounts(hours), 0);
    var sorted := SortDesc(es, ActivitiesOf);
    var ps := TopHours(hours);
    HourTable(hours);
    TrueCountsSorted(es, hours);
    TopSpec(es, ActivitiesOf, 5);
    forall h | h in hours && !HasHour(ps, h) ensures |ps| == 5 && Occurrences(hours, h) <= ps[4].activities {
      OmittedHour(es, h);
      var j :| 5 <= j < |es| && sorted[j].hour == h;
      assert ActivitiesOf(sorted[j]) <= ActivitiesOf(sorted[4]);
      assert ps[4] == sorted[4];
    }
  }

  lemma TopHoursLength(hours: seq<int>)
    ensures |TopHours(hours)| <= 5 && |TopHours(hours)| <= |hours|
  {
    HourEntriesBound(hours);
  }

  lemma TopHoursCounts(hours: seq<int>)
    requires forall i :: 0 <= i < |hours| ==> 0 <= hours[i] < 24
    ensures TrueCounts(TopHours(hours), hours)
  {
    var es := HourEntries(HourCounts(hours), 0);
    var sorted := SortDesc(es, ActivitiesOf);
    HourTable(hours);
    TrueCountsSorted(es, hours);
    TrueCountsPrefix(TopHours(hours), sorted, hours);
  }

  lemma TrueCountsPrefix(ps: seq<HourActivity>, qs: seq<HourActivity>, hours: seq<int>)
    requires ps <= qs && TrueCounts(qs, hours)
    ensures TrueCounts(ps, hours)
  {
    assert forall i :: 0 <= i < |ps| ==> ps[i] == qs[i];
  }

  lemma TopHoursOrdered(hours: seq<int>)
    ensures DescendingThenAscending(TopHours(hours), ActivitiesOf, HourOf)
  {
    var es := HourEntries(HourCounts(hours), 0);
    var sorted := SortDesc(es, ActivitiesOf);
    HourEntriesAscending(HourCounts(hours), 0);
    SortDescStable(es, ActivitiesOf, HourOf);
    assert TopHours(hours) <= sorted;
  }

  /** At most five entries; each a local hour 0..23 with its true activity
      count (at least 1); by non-increasing count, ties by ascending hour
      (hence distinct hours); and every hour with activity that is left out
      has no more activity than the fifth entry. */
  lemma PeakHoursSpec(logs: seq<ActivityLog>, offset: int)
    ensures |PeakHours(logs, offset)| <= 5 && |PeakHours(logs, offset)| <= |logs|
    ensures TrueCounts(PeakHours(logs, offset), LocalHours(logs, offset))
    ensures DescendingThenAscending(PeakHours(logs, offset), ActivitiesOf, HourOf)
    ensures OmittedNoBusier(PeakHours(logs, offset), LocalHours(logs, offset))
  {
    var hours := LocalHours(logs, offset);
    assert PeakHours(logs, offset) == TopHours(hours);
    TopHoursLength(hours);
    TopHoursCounts(hours);
    TopHoursOrdered(hours);
    TopHoursOmitted(hours);
  }

  /** The keys of `m` in `[from, 24)`. */
  ghost function KeysFrom(m: map<int, nat>, from: nat): set<int>
  {
    set h | h in m && from <= h < 24
  }

  lemma {:induction false} HourEntriesCount(m: map<int, nat>, from: nat)
    ensures |HourEntries(m, from)| == |KeysFrom(m, from)|
    decreases 24 - from
  {
    if from < 24 {
      HourEntriesCount(m, from + 1);
      if from in m {
        assert KeysFrom(m, from) == {from} + KeysFrom(m, from + 1);
      } else {
        assert KeysFrom(m, from) == KeysFrom(m, from + 1);
      }
    } else {
      assert KeysFrom(m, from) == {};
    }
  }

  /** The distinct hours are no more than the logs. */
  lemma HourEntriesBound(hours: seq<int>)
    ensures |HourEntries(HourCounts(hours), 0)| <= |hours|
  {
    var m := HourCounts(hours);
    HourEntriesCount(m, 0);
    assert KeysFrom(m, 0) <= m.Keys;
    SubsetCard(KeysFrom(m, 0), m.Keys);
  }

  lemma SubsetCard(a: set<int>, b: set<int>)
    requires a <= b
    ensures |a| <= |b|
  {
    assert b == a + (b - a);
  }

  /** With no logs the three analytics lists are empty. */
  lemma NoLogsNoAnalytics(offset: int)
    ensures ProcessAnalytics(CommunicationData([], [], [], []), offset) == Analytics([], [], [])
  {
  }

  /** No key of `m` lies in `[from, upto)`, so listing from `from` is listing
      from `upto`. */
  lemma {:induction false} HourEntriesSkip(m: map<int, nat>, from: nat, upto: nat)
    requires from <= upto <= 24
    requires forall h :: from <= h < upto ==> h !in m
    ensures HourEntries(m, from) == HourEntries(m, upto)
    decreases upto - from
  {
    if from < upto {
      HourEntriesSkip(m, from + 1, upto);
    }
  }

  function ActivityAt(hour: int): ActivityLog
  {
    ActivityLog("log", "user", "aac_usage", "", hour * HourMs)
  }

  lemma ExampleOccurrences(hours: seq<int>, y: int)
    requires hours == [9, 9, 14, 9, 20]
    ensures Occurrences(hours, y) == (if y == 9 then 3 else if y == 14 || y == 20 then 1 else 0)
  {
    var s4: seq<int> := [20];
    var s3 := [9] + s4;
    var s2 := [14] + s3;
    var s1 := [9] + s2;
    assert hours == [9] + s1;
    assert s4 == [20] + [];
    OccurrencesCons(20, [], y);
    OccurrencesCons(9, s4, y);
    OccurrencesCons(14, s3, y);
    OccurrencesCons(9, s2, y);
    OccurrencesCons(9, s1, y);
  }

  lemma ExampleHourCounts(hours: seq<int>)
    requires forall y :: Occurrences(hours, y) == (if y == 9 then 3 else if y == 14 || y == 20 then 1 else 0)
    ensures forall y :: y in HourCounts(hours) <==> y == 9 || y == 14 || y == 20
    ensures 9 in HourCounts(hours) && HourCounts(hours)[9] == 3
    ensures 14 in HourCounts(hours) && HourCounts(hours)[14] == 1
    ensures 20 in HourCounts(hours) && HourCounts(hours)[20] == 1
  {
    forall y ensures y in HourCounts(hours) <==> y == 9 || y == 14 || y == 20 {
      assert y in hours <==> Occurrences(hours, y) > 0;
    }
  }

  lemma OccurrencesCons<T>(x: T, s: seq<T>, y: T)
    ensures Occurrences([x] + s, y) == (if x == y then 1 else 0) + Occurrences(s, y)
  {
    assert ([x] + s)[1..] == s;
  }

  lemma ExampleHourEntries(m: map<int, nat>)
    requires forall y :: y in m <==> y == 9 || y == 14 || y == 20
    requires 9 in m && m[9] == 3 && 14 in m && m[14] == 1 && 20 in m && m[20] == 1
    ensures HourEntries(m, 0) == [HourActivity(9, 3), HourActivity(14, 1), HourActivity(20, 1)]
  {
    HourEntriesSkip(m, 0, 9);
    HourEntriesSkip(m, 10, 14);
    HourEntriesSkip(m, 15, 20);
    HourEntriesSkip(m, 21, 24);
    var tail := HourEntries(m, 21);
    assert tail == [];
    assert HourEntries(m, 20) == [HourActivity(20, 1)] + tail;
    assert HourEntries(m, 14) == [HourActivity(14, 1)] + HourEntries(m, 20);
    assert HourEntries(m, 9) == [HourActivity(9, 3)] + HourEntries(m, 14);
  }

  lemma ExampleSort(a: HourActivity, b: HourActivity, c: HourActivity)
    requires a == HourActivity(9, 3) && b == HourActivity(14, 1) && c == HourActivity(20, 1)
    ensures SortDesc([a, b, c], ActivitiesOf) == [a, b, c]
  {
    assert [a][..0] == [];
    assert SortDesc([a], ActivitiesOf) == Insert(a, [], ActivitiesOf) == [a];
    assert [a, b][..1] == [a];
    assert [a][1..] == [];
    assert Insert(b, [a], ActivitiesOf) == [a] + Insert(b, [], ActivitiesOf);
    assert SortDesc([a, b], ActivitiesOf) == [a, b];
    assert [a, b, c][..2] == [a, b];
    assert [a, b][1..] == [b];
    assert [b][1..] == [];
    assert Insert(c, [b], ActivitiesOf) == [b] + Insert(c, [], ActivitiesOf);
    assert Insert(c, [a, b], ActivitiesOf) == [a] + Insert(c, [b], ActivitiesOf);
  }

  /** Activity at 09:00, 09:00, 14:00, 09:00 and 20:00 gives the peak hours
      9 (three), then 14 and 20 (one each, the earlier hour first). */
  lemma PeakHoursExample()
    ensures PeakHours([ActivityAt(9), ActivityAt(9), ActivityAt(14), ActivityAt(9), ActivityAt(20)], 0)
            == [HourActivity(9, 3), HourActivity(14, 1), HourActivity(20, 1)]
  {
    var logs := [ActivityAt(9), ActivityAt(9), ActivityAt(14), ActivityAt(9), ActivityAt(20)];
    var hours := LocalHours(logs, 0);
    assert hours == [9, 9, 14, 9, 20];
    forall y ensures Occurrences(hours, y) == (if y == 9 then 3 else if y == 14 || y == 20 then 1 else 0) {
      ExampleOccurrences(hours, y);
    }
    ExampleHourCounts(hours);
    ExampleHourEntries(HourCounts(hours));
    ExampleSort(HourActivity(9, 3), HourActivity(14, 1), HourActivity(20, 1));
  }

  function ActivityOnDay(day: int): ActivityLog
  {
    ActivityLog("log", "user", "aac_usage", "", day * DayMs)
  }

  /** Buckets follow the order in which the dates first occur in the fetched
      logs, not the calendar: a log on day 5 read before one on day 3 gives
      day 5's bucket first. */
  lemma DailyActivityInArrivalOrder()
    ensures DailyActivity([ActivityOnDay(5), ActivityOnDay(3)]) == [DayActivity(5, 1), DayActivity(3, 1)]
  {
    var logs := [ActivityOnDay(5), ActivityOnDay(3)];
    assert UtcDays(logs) == [5, 3];
    assert [5, 3][..1] == [5];
    assert TallyOf([5]) == [Entry(5, 1)];
    assert Bump([Entry(5, 1)], 3) == [Entry(5, 1)] + Bump([], 3);
    assert TallyOf([5, 3]) == [Entry(5, 1), Entry(3, 1)];
  }
}
