/** The dashboard's recent-activity card: the icon and colour of each
    activity type, the relative age of an entry, and which entries are
    listed. */
module RecentActivity {
  import opened Wrappers
  import opened Clock
  import opened Records
  import opened Seqs
  import opened Ranking

  datatype Icon = Calendar | Heart | MessageSquare | Target

  /** `getActivityIcon`. */
  function IconFor(activityType: string): (i: Icon)
    ensures i == Calendar <==> activityType == "routine_created" || activityType == "routine_completed"
    ensures i == Heart <==> activityType == "emotion_logged"
    ensures i == MessageSquare <==> activityType == "aac_used" || activityType == "text_to_speech"
    ensures i == Target <==> activityType !in {"routine_created", "routine_completed", "emotion_logged", "aac_used", "text_to_speech"}
  {
    match activityType
    case "routine_created" => Calendar
    case "routine_completed" => Calendar
    case "emotion_logged" => Heart
    case "aac_used" => MessageSquare
    case "text_to_speech" => MessageSquare
    case _ => Target
  }

  /** `getActivityColor`. */
  function ColorFor(activityType: string): (c: string)
    ensures c == "text-blue-500" <==> activityType == "routine_created" || activityType == "routine_completed"
    ensures c == "text-red-500" <==> activityType == "emotion_logged"
    ensures c == "text-green-500" <==> activityType == "aac_used" || activityType == "text_to_speech"
    ensures c == "text-purple-500" <==> activityType !in {"routine_created", "routine_completed", "emotion_logged", "aac_used", "text_to_speech"}
  {
    match activityType
    case "routine_created" => "text-blue-500"
    case "routine_completed" => "text-blue-500"
    case "emotion_logged" => "text-red-500"
    case "aac_used" => "text-green-500"
    case "text_to_speech" => "text-green-500"
    case _ => "text-purple-500"
  }

  /** The two switches group the types the same way: two types share an
      icon exactly when they share a colour. */
  lemma IconAndColorAgree(a: string, b: string)
    ensures IconFor(a) == IconFor(b) <==> ColorFor(a) == ColorFor(b)
  {
  }

  /** How `formatDate` describes an entry's age. `Absolute` stands for the
      locale rendering of the entry's own timestamp. */
  datatype Age = JustNow | HoursAgo(hours: nat) | Absolute(at: int)

  /** `formatDate(created)` at instant `now`: under an hour (or in the
      future) is "Just now", under a day is the whole number of hours,
      anything older is the date itself. */
  function FormatDate(created: int, now: int): (a: Age)
    ensures a.JustNow? <==> now - created < HourMs
    ensures a.HoursAgo? <==> HourMs <= now - created < DayMs
    ensures a.HoursAgo? ==> 1 <= a.hours <= 23 && a.hours * HourMs <= now - created < (a.hours + 1) * HourMs
    ensures a.Absolute? <==> now - created >= DayMs
    ensures a.Absolute? ==> a.at == created
  {
    var diff := now - created;
    if diff < HourMs then JustNow
    else if diff < DayMs then HoursAgo(diff / HourMs)
    else Absolute(created)
  }

  /** `${n} hours ago` and `Just now`; `None` for the date rendering. */
  function AgeText(a: Age): (r: Option<string>)
    ensures r.None? <==> a.Absolute?
  {
    match a
    case JustNow => Some("Just now")
    case HoursAgo(n) => Some(Decimal(n) + " hours ago")
    case Absolute(_) => None
  }

  /** Decimal digits of a natural number. */
  function Decimal(n: nat): (r: string)
    ensures |r| >= 1
    ensures forall i :: 0 <= i < |r| ==> '0' <= r[i] <= '9'
    ensures n < 10 ==> |r| == 1
    ensures 10 <= n < 100 ==> |r| == 2
  {
    if n < 10 then [(48 + n) as char] else Decimal(n / 10) + [(48 + n % 10) as char]
  }

  /** The position of an age on the scale "Just now" < 1 hour < ... <
      23 hours < a date. */
  function AgeRank(a: Age): nat
  {
    match a
    case JustNow => 0
    case HoursAgo(n) => n
    case Absolute(_) => 24
  }

  /** As time passes an entry only ever looks older. */
  lemma AgeNeverDecreases(created: int, now1: int, now2: int)
    requires now1 <= now2
    ensures AgeRank(FormatDate(created, now1)) <= AgeRank(FormatDate(created, now2))
  {
    var d1, d2 := now1 - created, now2 - created;
    if HourMs <= d1 < DayMs && HourMs <= d2 < DayMs {
      DivMonotone(d1, d2);
    }
  }

  lemma DivMonotone(a: int, b: int)
    requires 0 <= a <= b
    ensures a / HourMs <= b / HourMs
  {
  }

  /** "1 hours ago": the text does not switch to the singular. */
  lemma OneHoursAgo(created: int)
    ensures AgeText(FormatDate(created, created + HourMs)) == Some("1 hours ago")
  {
    assert FormatDate(created, created + HourMs) == HoursAgo(1);
    assert Decimal(1) == "1";
    assert "1" + " hours ago" == "1 hours ago";
  }

  function CreatedAt(a: ActivityLog): int { a.createdAt }

  /** The card's query: the user's activity logs, newest first
      (`order('created_at', desc)`), at most 10. Rows with equal
      timestamps keep the table's order. A failed read shows nothing. */
  function RecentActivities(db: Database, userId: string): (r: seq<ActivityLog>)
  {
    var mine := Select(db.activityLogs, (a: ActivityLog) => a.userId == userId).GetOr([]);
    Take(SortDesc(mine, CreatedAt), 10)
  }

  /** At most ten entries, all the user's own and none listed more often
      than the table holds it, newest first; any of the user's logs not
      listed is no newer than the last one listed. */
  lemma RecentActivitiesSpec(db: Database, userId: string)
    ensures |RecentActivities(db, userId)| <= 10
    ensures forall i :: 0 <= i < |RecentActivities(db, userId)| ==>
              db.activityLogs.Some? && RecentActivities(db, userId)[i] in db.activityLogs.value
              && RecentActivities(db, userId)[i].userId == userId
    ensures Descending(RecentActivities(db, userId), CreatedAt)
    ensures db.activityLogs.Some? ==>
              forall x :: x in db.activityLogs.value && x.userId == userId && x !in RecentActivities(db, userId) ==>
                |RecentActivities(db, userId)| == 10 && x.createdAt <= RecentActivities(db, userId)[9].createdAt
    ensures db.activityLogs.Some? ==> multiset(RecentActivities(db, userId)) <= multiset(db.activityLogs.value)
  {
    var mine := Select(db.activityLogs, (a: ActivityLog) => a.userId == userId).GetOr([]);
    var r := RecentActivities(db, userId);
    TopSpec(mine, CreatedAt, 10);
    if db.activityLogs.Some? {
      assert multiset(mine) <= multiset(db.activityLogs.value);
    }
    forall i | 0 <= i < |r|
      ensures db.activityLogs.Some? && r[i] in db.activityLogs.value && r[i].userId == userId
    {
      assert r[i] in multiset(r);
    }
    if db.activityLogs.Some? {
      forall x | x in db.activityLogs.value && x.userId == userId && x !in r
        ensures |r| == 10 && x.createdAt <= r[9].createdAt
      {
        var k :| 0 <= k < |db.activityLogs.value| && db.activityLogs.value[k] == x;
        assert x in mine;
        TopOmitted(mine, CreatedAt, 10, x);
      }
    }
  }
}
