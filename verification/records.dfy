/** Rows of the remote tables the screens read, with the columns the model
    uses (after the `Row` shapes of `src/integrations/supabase/types.ts`),
    and the store they are read from. Timestamps are instants (see
    `Clock`); a nullable timestamp column is an `Option`. */
module Records {
  import opened Wrappers
  import Seqs

  datatype Role = User | Caregiver

  /** Age groups the sign-up screen offers; onboarding also offers `Teen`. */
  datatype AgeGroup = Child | Teen | Adult

  datatype Theme = Light | Dark

  /** The `preferences` JSON column of a profile. */
  datatype Preferences = Preferences(theme: Theme, notifications: bool, simplifiedUi: bool, highContrast: bool)

  datatype AacUsageLog = AacUsageLog(id: string, userId: string, usedAt: Option<int>)

  /** `metadata` (free-form JSON) is not modelled. */
  datatype ActivityLog = ActivityLog(
    id: string, userId: string, activityType: string, description: string, createdAt: int)

  datatype CaregiverRelationship = CaregiverRelationship(id: string, caregiverId: string, userId: string)

  datatype EmotionLog = EmotionLog(id: string, userId: string, emotion: string, loggedAt: Option<int>)

  datatype RoutineCompletion = RoutineCompletion(
    id: string, userId: string, routineId: string, completedAt: Option<int>)

  /** The tables; `None` stands for a table the query cannot read, so the
      client gets `data: null` back. */
  datatype Database = Database(
    aacUsageLogs: Option<seq<AacUsageLog>>,
    activityLogs: Option<seq<ActivityLog>>,
    caregiverRelationships: Option<seq<CaregiverRelationship>>,
    emotionLogs: Option<seq<EmotionLog>>,
    routineCompletions: Option<seq<RoutineCompletion>>)

  /** A `select('*')` whose `.eq/.in/.gte/.lte` filters are the predicate
      `p`: the matching rows in table order, each as often as the table
      holds it, or `null`. */
  function Select<T(!new)>(table: Option<seq<T>>, p: T -> bool): (r: Option<seq<T>>)
    ensures r.Some? <==> table.Some?
    ensures r.Some? ==> forall i :: 0 <= i < |r.value| ==> p(r.value[i]) && r.value[i] in table.value
    ensures r.Some? ==> forall i :: 0 <= i < |table.value| && p(table.value[i]) ==> table.value[i] in r.value
    ensures r.Some? ==> forall x :: multiset(r.value)[x] == if p(x) then multiset(table.value)[x] else 0
  {
    match table
    case None => None
    case Some(rows) => Seqs.FilterMultiset(rows, p); Some(Seqs.Filter(rows, p))
  }

  /** A SQL comparison on a nullable timestamp: `NULL` never matches. */
  predicate AtOrAfter(t: Option<int>, start: int)
  {
    t.Some? && t.value >= start
  }

  predicate Between(t: Option<int>, start: int, end: int)
  {
    t.Some? && start <= t.value <= end
  }
}
