/** The progress screen: this month's counts per log, the activity streak
    ending today, the four achievements and the three goals with their
    remaining-to-goal numbers. "Now" and the local zone offset are
    parameters; so is the local day of the month, which needs a calendar. */
module Progress {
  import opened Wrappers
  import opened Clock
  import opened Records
  import Seqs

  /** The streak walk looks at today and at most this many earlier days. */
  const Lookback: nat := 30

  datatype ProgressStats = ProgressStats(
    routinesCompleted: nat, emotionsLogged: nat, aacUsage: nat, streakDays: nat, totalActivities: nat)

  const InitialStats := ProgressStats(0, 0, 0, 0, 0)

  /** `setDate(1); setHours(0, 0, 0, 0)` on a copy of now: the first instant
      of the current local month, given now's local day of the month. */
  function MonthStart(now: int, offset: int, dayOfMonth: int): (start: int)
    requires 1 <= dayOfMonth <= 31
    ensures start <= now
    ensures DayNumber(start, offset) == DayNumber(now, offset) - (dayOfMonth - 1)
    ensures DayNumber(start - 1, offset) == DayNumber(start, offset) - 1
    ensures HourOfDay(start, offset) == 0
  {
    Midnight(DayNumber(now, offset) - (dayOfMonth - 1), offset)
  }

  /** Some activity falls on local day number `day`. */
  predicate ActiveOn(acts: seq<ActivityLog>, day: int, offset: int)
  {
    exists i :: 0 <= i < |acts| && DayNumber(acts[i].createdAt, offset) == day
  }

  /** The walk from `day` backwards over at most `budget` days, stopping at
      the first day without activity. */
  function StreakRun(acts: seq<ActivityLog>, day: int, offset: int, budget: nat): (n: nat)
    ensures n <= budget
    ensures forall d :: day - n < d <= day ==> ActiveOn(acts, d, offset)
    ensures n < budget ==> !ActiveOn(acts, day - n, offset)
    decreases budget
  {
    if budget == 0 then 0
    else if ActiveOn(acts, day, offset) then 1 + StreakRun(acts, day - 1, offset, budget - 1)
    else 0
  }

  /** `calculateStreak`: consecutive active local days ending today. */
  function Streak(acts: seq<ActivityLog>, now: int, offset: int): nat
  {
    StreakRun(acts, DayNumber(now, offset), offset, Lookback + 1)
  }

  /** `calculateStreak` as written: `current` starts at now and steps back one
      day while it is not earlier than now minus 30 days; a day counts when
      the activities filtered to its `toDateString()` are non-empty. */
  method CalculateStreak(acts: seq<ActivityLog>, now: int, offset: int) returns (streak: nat)
    ensures streak <= Lookback + 1
    ensures forall d :: DayNumber(now, offset) - streak < d <= DayNumber(now, offset) ==> ActiveOn(acts, d, offset)
    ensures streak <= Lookback ==> !ActiveOn(acts, DayNumber(now, offset) - streak, offset)
    ensures streak == Streak(acts, now, offset)
  {
    var today := DayNumber(now, offset);
    streak := 0;
    var current := now;
    while current >= now - Lookback * DayMs
      invariant streak <= Lookback + 1
      invariant current == now - streak * DayMs
      invariant forall d :: today - streak < d <= today ==> ActiveOn(acts, d, offset)
      invariant Streak(acts, now, offset)
                == streak + StreakRun(acts, today - streak, offset, Lookback + 1 - streak)
      decreases current - (now - Lookback * DayMs)
    {
      DayNumberShift(now, offset, streak);
      var day := DayNumber(current, offset);
      var dayActivities := Seqs.Filter(acts, (a: ActivityLog) => DayNumber(a.createdAt, offset) == day);
      if |dayActivities| > 0 {
        assert dayActivities[0] in acts;
        streak := streak + 1;
        current := current - DayMs;
      } else {
        assert !ActiveOn(acts, today - streak, offset);
        break;
      }
    }
  }

  /** `data?.length || 0`. */
  function Count<T>(data: Option<seq<T>>): (n: nat)
    ensures data.None? ==> n == 0
    ensures data.Some? ==> n == |data.value|
  {
    match data
    case None => 0
    case Some(rows) => |rows|
  }

  /** The rows each month query keeps: the user's, at or after the month
      start, with no upper bound. */
  predicate RoutineInMonth(c: RoutineCompletion, uid: string, start: int)
  {
    c.userId == uid && AtOrAfter(c.completedAt, start)
  }

  predicate EmotionInMonth(e: EmotionLog, uid: string, start: int)
  {
    e.userId == uid && AtOrAfter(e.loggedAt, start)
  }

  predicate AacInMonth(u: AacUsageLog, uid: string, start: int)
  {
    u.userId == uid && AtOrAfter(u.usedAt, start)
  }

  predicate ActivityInMonth(a: ActivityLog, uid: string, start: int)
  {
    a.userId == uid && a.createdAt >= start
  }

  /** `fetchProgressData`: the four month queries and the stats built from
      them. With no signed-in user the initial all-zero stats remain. With
      one, each count is the number of that user's rows at or after the
      month start (0 for a failed read), and the streak is taken over the
      month's activities (see `LoadedStreak`). */
  function LoadProgress(user: Option<string>, db: Database, now: int, offset: int, dayOfMonth: int)
    : (r: ProgressStats)
    requires 1 <= dayOfMonth <= 31
    ensures user.None? ==> r == InitialStats
    ensures db.routineCompletions.None? ==> r.routinesCompleted == 0
    ensures db.emotionLogs.None? ==> r.emotionsLogged == 0
    ensures db.aacUsageLogs.None? ==> r.aacUsage == 0
    ensures db.activityLogs.None? ==> r.totalActivities == 0 && r.streakDays == 0
    ensures user.Some? && db.routineCompletions.Some? ==>
      var t := db.routineCompletions.value;
      r.routinesCompleted
        == |set i | 0 <= i < |t| && RoutineInMonth(t[i], user.value, MonthStart(now, offset, dayOfMonth))|
    ensures user.Some? && db.emotionLogs.Some? ==>
      var t := db.emotionLogs.value;
      r.emotionsLogged
        == |set i | 0 <= i < |t| && EmotionInMonth(t[i], user.value, MonthStart(now, offset, dayOfMonth))|
    ensures user.Some? && db.aacUsageLogs.Some? ==>
      var t := db.aacUsageLogs.value;
      r.aacUsage
        == |set i | 0 <= i < |t| && AacInMonth(t[i], user.value, MonthStart(now, offset, dayOfMonth))|
    ensures user.Some? && db.activityLogs.Some? ==>
      var t := db.activityLogs.value;
      r.totalActivities
        == |set i | 0 <= i < |t| && ActivityInMonth(t[i], user.value, MonthStart(now, offset, dayOfMonth))|
    ensures r.streakDays <= dayOfMonth
    ensures r.streakDays <= r.totalActivities
  {
    match user
    case None => InitialStats
    case Some(uid) =>
      var start := MonthStart(now, offset, dayOfMonth);
      var inMonth := (c: RoutineCompletion) => RoutineInMonth(c, uid, start);
      var emotionInMonth := (e: EmotionLog) => EmotionInMonth(e, uid, start);
      var aacInMonth := (u: AacUsageLog) => AacInMonth(u, uid, start);
      var activityInMonth := (a: ActivityLog) => ActivityInMonth(a, uid, start);
      var routines := Select(db.routineCompletions, inMonth);
      var emotions := Select(db.emotionLogs, emotionInMonth);
      var aac := Select(db.aacUsageLogs, aacInMonth);
      var activities := Select(db.activityLogs, activityInMonth);
      RoutinesCounted(db, inMonth, uid, start);
      EmotionsCounted(db, emotionInMonth, uid, start);
      AacCounted(db, aacInMonth, uid, start);
      ActivitiesCounted(db, activityInMonth, uid, start);
      var acts := activities.GetOr([]);
      StreakWithinMonth(acts, now, offset, dayOfMonth);
      StreakAtMostActivities(acts, now, offset);
      ProgressStats(Count(routines), Count(emotions), Count(aac), Streak(acts, now, offset), Count(activities))
  }

  /** A month query returns as many rows as the table has rows of the
      user at or after the month start. */
  lemma RoutinesCounted(db: Database, p: RoutineCompletion -> bool, uid: string, start: int)
    requires forall c :: p(c) == RoutineInMonth(c, uid, start)
    ensures db.routineCompletions.Some? ==>
      var t := db.routineCompletions.value;
      |Select(db.routineCompletions, p).value| == |set i | 0 <= i < |t| && RoutineInMonth(t[i], uid, start)|
  {
    if db.routineCompletions.Some? {
      var t := db.routineCompletions.value;
      Seqs.FilterPlaces(t, p);
      assert Seqs.Passing(t, p, |t|) == set i | 0 <= i < |t| && RoutineInMonth(t[i], uid, start);
    }
  }

  lemma EmotionsCounted(db: Database, p: EmotionLog -> bool, uid: string, start: int)
    requires forall e :: p(e) == EmotionInMonth(e, uid, start)
    ensures db.emotionLogs.Some? ==>
      var t := db.emotionLogs.value;
      |Select(db.emotionLogs, p).value| == |set i | 0 <= i < |t| && EmotionInMonth(t[i], uid, start)|
  {
    if db.emotionLogs.Some? {
      var t := db.emotionLogs.value;
      Seqs.FilterPlaces(t, p);
      assert Seqs.Passing(t, p, |t|) == set i | 0 <= i < |t| && EmotionInMonth(t[i], uid, start);
    }
  }

  lemma AacCounted(db: Database, p: AacUsageLog -> bool, uid: string, start: int)
    requires forall u :: p(u) == AacInMonth(u, uid, start)
    ensures db.aacUsageLogs.Some? ==>
      var t := db.aacUsageLogs.value;
      |Select(db.aacUsageLogs, p).value| == |set i | 0 <= i < |t| && AacInMonth(t[i], uid, start)|
  {
    if db.aacUsageLogs.Some? {
      var t := db.aacUsageLogs.value;
      Seqs.FilterPlaces(t, p);
      assert Seqs.Passing(t, p, |t|) == set i | 0 <= i < |t| && AacInMonth(t[i], uid, start);
    }
  }

  lemma ActivitiesCounted(db: Database, p: ActivityLog -> bool, uid: string, start: int)
    requires forall a :: p(a) == ActivityInMonth(a, uid, start)
    ensures db.activityLogs.Some? ==>
      var t := db.activityLogs.value;
      |Select(db.activityLogs, p).value| == |set i | 0 <= i < |t| && ActivityInMonth(t[i], uid, start)|
  {
    if db.activityLogs.Some? {
      var t := db.activityLogs.value;
      Seqs.FilterPlaces(t, p);
      assert Seqs.Passing(t, p, |t|) == set i | 0 <= i < |t| && ActivityInMonth(t[i], uid, start);
    }
  }

  /** The streak on the screen is `Streak` of the user's activities at or
      after the month start, however they are listed. */
  lemma LoadedStreak(uid: string, db: Database, now: int, offset: int, dayOfMonth: int, acts: seq<ActivityLog>)
    requires 1 <= dayOfMonth <= 31
    requires db.activityLogs.Some?
    requires forall a :: a in acts <==>
               a in db.activityLogs.value && ActivityInMonth(a, uid, MonthStart(now, offset, dayOfMonth))
    ensures LoadProgress(Some(uid), db, now, offset, dayOfMonth).streakDays == Streak(acts, now, offset)
  {
    var start := MonthStart(now, offset, dayOfMonth);
    var fetched := Select(db.activityLogs, (a: ActivityLog) => ActivityInMonth(a, uid, start)).value;
    forall j | 0 <= j < |acts| ensures acts[j] in fetched {
      assert acts[j] in db.activityLogs.value;
    }
    StreakIgnoresOrderAndDuplicates(fetched, acts, now, offset);
  }

  // ---------------------------------------------------------------------
  // Properties of the streak

  /** Without activity today the streak is 0, whatever came before. */
  lemma StreakZeroWithoutToday(acts: seq<ActivityLog>, now: int, offset: int)
    requires !ActiveOn(acts, DayNumber(now, offset), offset)
    ensures Streak(acts, now, offset) == 0
  {
  }

  /** `n` is the length of the maximal run of active days ending at `today`,
      counting at most today and `Lookback` earlier days. */
  ghost predicate MaximalRun(acts: seq<ActivityLog>, today: int, offset: int, n: nat)
  {
    && n <= Lookback + 1
    && (forall d :: today - n < d <= today ==> ActiveOn(acts, d, offset))
    && (n <= Lookback ==> !ActiveOn(acts, today - n, offset))
  }

  /** The streak is exactly the maximal run: a single gap stops it and there
      is no grace day. */
  lemma StreakIsMaximalRun(acts: seq<ActivityLog>, now: int, offset: int, n: nat)
    ensures MaximalRun(acts, DayNumber(now, offset), offset, n) <==> n == Streak(acts, now, offset)
  {
  }

  /** Activity on today and the two days before, none three days back: a
      streak of 3. */
  lemma StreakOfThree(acts: seq<ActivityLog>, now: int, offset: int)
    requires forall d :: DayNumber(now, offset) - 3 < d <= DayNumber(now, offset) ==> ActiveOn(acts, d, offset)
    requires !ActiveOn(acts, DayNumber(now, offset) - 3, offset)
    ensures Streak(acts, now, offset) == 3
  {
    StreakIsMaximalRun(acts, now, offset, 3);
  }

  lemma {:induction false} StreakRunSameDays(a: seq<ActivityLog>, b: seq<ActivityLog>, day: int, offset: int, budget: nat)
    requires forall d :: ActiveOn(a, d, offset) <==> ActiveOn(b, d, offset)
    ensures StreakRun(a, day, offset, budget) == StreakRun(b, day, offset, budget)
    decreases budget
  {
    if budget > 0 && ActiveOn(a, day, offset) {
      StreakRunSameDays(a, b, day - 1, offset, budget - 1);
    }
  }

  lemma ActiveOnSubset(a: seq<ActivityLog>, b: seq<ActivityLog>, d: int, offset: int)
    requires forall i :: 0 <= i < |a| ==> a[i] in b
    ensures ActiveOn(a, d, offset) ==> ActiveOn(b, d, offset)
  {
    if ActiveOn(a, d, offset) {
      var i :| 0 <= i < |a| && DayNumber(a[i].createdAt, offset) == d;
      var j :| 0 <= j < |b| && b[j] == a[i];
    }
  }

  /** The streak depends only on which days are active: two activity lists
      with the same elements, in any order and with any repetitions, have
      the same streak. */
  lemma StreakIgnoresOrderAndDuplicates(a: seq<ActivityLog>, b: seq<ActivityLog>, now: int, offset: int)
    requires forall i :: 0 <= i < |a| ==> a[i] in b
    requires forall j :: 0 <= j < |b| ==> b[j] in a
    ensures Streak(a, now, offset) == Streak(b, now, offset)
  {
    forall d ensures ActiveOn(a, d, offset) <==> ActiveOn(b, d, offset) {
      ActiveOnSubset(a, b, d, offset);
      ActiveOnSubset(b, a, d, offset);
    }
    StreakRunSameDays(a, b, DayNumber(now, offset), offset, Lookback + 1);
  }

  /** Fed only this month's activities, the streak never exceeds today's
      day of the month. */
  lemma StreakWithinMonth(acts: seq<ActivityLog>, now: int, offset: int, dayOfMonth: int)
    requires 1 <= dayOfMonth <= 31
    requires forall i :: 0 <= i < |acts| ==> acts[i].createdAt >= MonthStart(now, offset, dayOfMonth)
    ensures Streak(acts, now, offset) <= dayOfMonth
  {
    var today := DayNumber(now, offset);
    var start := MonthStart(now, offset, dayOfMonth);
    forall i | 0 <= i < |acts| ensures DayNumber(acts[i].createdAt, offset) > today - dayOfMonth {
      DayNumberMonotone(start, acts[i].createdAt, offset);
    }
    assert !ActiveOn(acts, today - dayOfMonth, offset);
  }

  /** Number of activities on local days `lo` to `hi`. */
  function CountDays(acts: seq<ActivityLog>, lo: int, hi: int, offset: int): nat
  {
    if |acts| == 0 then 0
    else (if lo <= DayNumber(acts[0].createdAt, offset) <= hi then 1 else 0) + CountDays(acts[1..], lo, hi, offset)
  }

  lemma {:induction false} CountDaysBound(acts: seq<ActivityLog>, lo: int, hi: int, offset: int)
    ensures CountDays(acts, lo, hi, offset) <= |acts|
  {
    if |acts| > 0 {
      CountDaysBound(acts[1..], lo, hi, offset);
    }
  }

  lemma {:induction false} CountDaysSplit(acts: seq<ActivityLog>, lo: int, hi: int, offset: int)
    requires lo <= hi
    ensures CountDays(acts, lo, hi, offset) == CountDays(acts, lo, hi - 1, offset) + CountDays(acts, hi, hi, offset)
  {
    if |acts| > 0 {
      CountDaysSplit(acts[1..], lo, hi, offset);
    }
  }

  lemma {:induction false} CountDaysActive(acts: seq<ActivityLog>, day: int, offset: int)
    requires ActiveOn(acts, day, offset)
    ensures CountDays(acts, day, day, offset) >= 1
  {
    if DayNumber(acts[0].createdAt, offset) != day {
      var i :| 0 <= i < |acts| && DayNumber(acts[i].createdAt, offset) == day;
      assert acts[1..][i - 1] == acts[i];
      CountDaysActive(acts[1..], day, offset);
    }
  }

  lemma {:induction false} StreakRunCounted(acts: seq<ActivityLog>, day: int, offset: int, budget: nat)
    ensures StreakRun(acts, day, offset, budget) <= CountDays(acts, day - budget + 1, day, offset)
    decreases budget
  {
    if budget > 0 && ActiveOn(acts, day, offset) {
      StreakRunCounted(acts, day - 1, offset, budget - 1);
      CountDaysSplit(acts, day - budget + 1, day, offset);
      CountDaysActive(acts, day, offset);
    }
  }

  /** Each streak day needs an activity of its own, so the streak never
      exceeds the number of activities. */
  lemma StreakAtMostActivities(acts: seq<ActivityLog>, now: int, offset: int)
    ensures Streak(acts, now, offset) <= |acts|
  {
    var today := DayNumber(now, offset);
    StreakRunCounted(acts, today, offset, Lookback + 1);
    CountDaysBound(acts, today - Lookback, today, offset);
  }

  // ---------------------------------------------------------------------
  // Achievements and goals

  datatype Achievement = Achievement(name: string, description: string, unlocked: bool)

  /** The achievement list, recomputed from the current stats on every
      render: nothing stays unlocked once its count drops again. */
  function Achievements(s: ProgressStats): (r: seq<Achievement>)
    ensures |r| == 4
    ensures r[0].name == "First Step" && (r[0].unlocked <==> s.routinesCompleted >= 1)
    ensures r[1].name == "Emotion Explorer" && (r[1].unlocked <==> s.emotionsLogged >= 10)
    ensures r[2].name == "Communicator" && (r[2].unlocked <==> s.aacUsage >= 5)
    ensures r[3].name == "Week Warrior" && (r[3].unlocked <==> s.streakDays >= 7)
  {
    [ Achievement("First Step", "Completed your first routine", s.routinesCompleted > 0),
      Achievement("Emotion Explorer", "Logged 10 emotions", s.emotionsLogged >= 10),
      Achievement("Communicator", "Used AAC board 5 times", s.aacUsage >= 5),
      Achievement("Week Warrior", "7-day activity streak", s.streakDays >= 7) ]
  }

  /** Every count of `t` is at least that of `s`. */
  predicate Dominates(t: ProgressStats, s: ProgressStats)
  {
    && t.routinesCompleted >= s.routinesCompleted
    && t.emotionsLogged >= s.emotionsLogged
    && t.aacUsage >= s.aacUsage
    && t.streakDays >= s.streakDays
  }

  /** Each achievement is monotone in its count. */
  lemma AchievementsMonotone(s: ProgressStats, t: ProgressStats)
    requires Dominates(t, s)
    ensures forall i :: 0 <= i < 4 && Achievements(s)[i].unlocked ==> Achievements(t)[i].unlocked
  {
  }

  datatype Goal = Goal(name: string, current: nat, target: nat)

  /** The goal table: routines, emotions and AAC uses against 30, 20, 15. */
  function Goals(s: ProgressStats): (r: seq<Goal>)
    ensures |r| == 3
    ensures r[0].name == "Daily Routines" && r[0].current == s.routinesCompleted && r[0].target == 30
    ensures r[1].name == "Emotion Check-ins" && r[1].current == s.emotionsLogged && r[1].target == 20
    ensures r[2].name == "Communication" && r[2].current == s.aacUsage && r[2].target == 15
  {
    [ Goal("Daily Routines", s.routinesCompleted, 30),
      Goal("Emotion Check-ins", s.emotionsLogged, 20),
      Goal("Communication", s.aacUsage, 15) ]
  }

  /** `Math.max(0, goal.target - goal.current)`. */
  function Remaining(g: Goal): (n: nat)
    ensures n == 0 <==> g.current >= g.target
    ensures g.current < g.target ==> g.current + n == g.target
    ensures n <= g.target
  {
    if g.target - g.current > 0 then g.target - g.current else 0
  }

  /** With nothing logged this month (or no user), every count and the
      streak are 0, every goal is a full target away, and every achievement
      is locked. */
  lemma NothingLogged(user: Option<string>, db: Database, now: int, offset: int, dayOfMonth: int)
    requires 1 <= dayOfMonth <= 31
    requires db.routineCompletions.Some? ==> db.routineCompletions.value == []
    requires db.emotionLogs.Some? ==> db.emotionLogs.value == []
    requires db.aacUsageLogs.Some? ==> db.aacUsageLogs.value == []
    requires db.activityLogs.Some? ==> db.activityLogs.value == []
    ensures LoadProgress(user, db, now, offset, dayOfMonth) == InitialStats
    ensures forall i :: 0 <= i < 3 ==> Remaining(Goals(InitialStats)[i]) == Goals(InitialStats)[i].target
    ensures forall i :: 0 <= i < 4 ==> !Achievements(InitialStats)[i].unlocked
  {
  }

  /** Ten emotion logs this month unlock "Emotion Explorer"; no activity today
      keeps "Week Warrior" locked. */
  lemma ExplorerWithoutWarrior(uid: string, db: Database, now: int, offset: int, dayOfMonth: int)
    requires 1 <= dayOfMonth <= 31
    requires LoadProgress(Some(uid), db, now, offset, dayOfMonth).emotionsLogged >= 10
    requires db.activityLogs.Some? ==> !ActiveOn(db.activityLogs.value, DayNumber(now, offset), offset)
    ensures Achievements(LoadProgress(Some(uid), db, now, offset, dayOfMonth))[1].unlocked
    ensures !Achievements(LoadProgress(Some(uid), db, now, offset, dayOfMonth))[3].unlocked
  {
    var start := MonthStart(now, offset, dayOfMonth);
    var activities := Select(db.activityLogs, (a: ActivityLog) => ActivityInMonth(a, uid, start));
    var acts := activities.GetOr([]);
    if db.activityLogs.Some? {
      ActiveOnSubset(acts, db.activityLogs.value, DayNumber(now, offset), offset);
    }
    StreakZeroWithoutToday(acts, now, offset);
  }
}
