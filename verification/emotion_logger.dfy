/** The emotion logger screen: the table of emotions offered, the lookup
    that styles a logged emotion, the list of recent logs, and what logging
    an emotion does. */
module EmotionLogger {
  import opened Wrappers
  import opened Records
  import opened Seqs
  import opened Ranking

  datatype EmotionIcon = Smile | Frown | Meh | Heart | TrendingUp

  datatype EmotionConfig = EmotionConfig(name: string, icon: EmotionIcon, color: string, bg: string)

  /** The five emotions, in the order the buttons show them. */
  const Emotions: seq<EmotionConfig> := [
    EmotionConfig("happy", Smile, "text-green-500", "bg-green-50 hover:bg-green-100"),
    EmotionConfig("sad", Frown, "text-blue-500", "bg-blue-50 hover:bg-blue-100"),
    EmotionConfig("neutral", Meh, "text-gray-500", "bg-gray-50 hover:bg-gray-100"),
    EmotionConfig("excited", Heart, "text-red-500", "bg-red-50 hover:bg-red-100"),
    EmotionConfig("anxious", TrendingUp, "text-yellow-500", "bg-yellow-50 hover:bg-yellow-100")
  ]

  /** `Array.prototype.find` on the name: the first entry with that name. */
  function FindByName(table: seq<EmotionConfig>, name: string): (r: Option<EmotionConfig>)
    ensures r.None? <==> forall i :: 0 <= i < |table| ==> table[i].name != name
    ensures r.Some? ==> exists k :: 0 <= k < |table| && table[k] == r.value
                          && r.value.name == name
                          && forall i :: 0 <= i < k ==> table[i].name != name
  {
    if |table| == 0 then None
    else if table[0].name == name then Some(table[0])
    else
      var rest := FindByName(table[1..], name);
      if rest.Some? then
        var k :| 0 <= k < |table[1..]| && table[1..][k] == rest.value
                 && rest.value.name == name
                 && forall i :: 0 <= i < k ==> table[1..][i].name != name;
        assert table[k + 1] == rest.value;
        rest
      else rest
  }

  predicate Known(name: string)
  {
    exists i :: 0 <= i < |Emotions| && Emotions[i].name == name
  }

  /** `getEmotionConfig`: the entry with that name, or `neutral`. */
  function GetEmotionConfig(name: string): (c: EmotionConfig)
    ensures c in Emotions
    ensures Known(name) ==> c.name == name
    ensures !Known(name) ==> c == Emotions[2] && c.name == "neutral"
  {
    FindByName(Emotions, name).GetOr(Emotions[2])
  }

  /** No two entries share a name. */
  lemma EmotionNamesDistinct()
    ensures |Emotions| == 5
    ensures forall i, j :: 0 <= i < j < |Emotions| ==> Emotions[i].name != Emotions[j].name
  {
    forall i, j | 0 <= i < j < |Emotions| ensures Emotions[i].name != Emotions[j].name {
      assert Emotions[i].name[0] != Emotions[j].name[0] || Emotions[i].name[1] != Emotions[j].name[1];
    }
  }

  /** Looking up the name of a looked-up entry gives the same entry, and
      every entry is found by its own name. */
  lemma GetEmotionConfigIdempotent(name: string)
    ensures GetEmotionConfig(GetEmotionConfig(name).name) == GetEmotionConfig(name)
  {
    var c := GetEmotionConfig(name);
    EveryEntryFoundByName();
  }

  lemma EveryEntryFoundByName()
    ensures forall i :: 0 <= i < |Emotions| ==> GetEmotionConfig(Emotions[i].name) == Emotions[i]
  {
    EmotionNamesDistinct();
    forall i | 0 <= i < |Emotions| ensures GetEmotionConfig(Emotions[i].name) == Emotions[i] {
      var c := GetEmotionConfig(Emotions[i].name);
      assert Known(Emotions[i].name);
      var k :| 0 <= k < |Emotions| && Emotions[k] == c;
      assert Emotions[k].name == Emotions[i].name;
    }
  }

  function LoggedAt(e: EmotionLog): int { e.loggedAt.GetOr(0) }

  function Mine(rows: seq<EmotionLog>, userId: string): seq<EmotionLog>
  {
    Filter(rows, (e: EmotionLog) => e.userId == userId)
  }

  function Untimed(rows: seq<EmotionLog>, userId: string): seq<EmotionLog>
  {
    Filter(Mine(rows, userId), (e: EmotionLog) => e.loggedAt.None?)
  }

  function Timed(rows: seq<EmotionLog>, userId: string): seq<EmotionLog>
  {
    SortDesc(Filter(Mine(rows, userId), (e: EmotionLog) => e.loggedAt.Some?), LoggedAt)
  }

  /** `order('logged_at', { ascending: false }).limit(20)` on the user's
      logs: PostgreSQL puts `NULL` first in a descending order, so logs
      without a time come first (in table order), then the others newest
      first; at most 20. */
  function RecentLogs(rows: seq<EmotionLog>, userId: string): seq<EmotionLog>
  {
    Take(Untimed(rows, userId) + Timed(rows, userId), 20)
  }

  /** Logs without a time before logs with one, and timed logs newest first. */
  ghost predicate NewestFirst(s: seq<EmotionLog>)
  {
    forall i, j :: 0 <= i < j < |s| ==>
      (s[j].loggedAt.None? ==> s[i].loggedAt.None?)
      && (s[i].loggedAt.Some? && s[j].loggedAt.Some? ==> s[i].loggedAt.value >= s[j].loggedAt.value)
  }

  /** `e` may come after `last` in that order: it has no time only if
      `last` has none, and it is no newer than a timed `last`. */
  predicate Follows(e: EmotionLog, last: EmotionLog)
  {
    && (e.loggedAt.None? ==> last.loggedAt.None?)
    && (e.loggedAt.Some? && last.loggedAt.Some? ==> e.loggedAt.value <= last.loggedAt.value)
  }

  /** The sorted timed logs are exactly the user's timed logs. */
  lemma TimedSpec(rows: seq<EmotionLog>, userId: string)
    ensures forall e :: e in Timed(rows, userId) <==> e in rows && e.userId == userId && e.loggedAt.Some?
    ensures Descending(Timed(rows, userId), LoggedAt)
  {
    var timed := Filter(Mine(rows, userId), (e: EmotionLog) => e.loggedAt.Some?);
    SortDescSpec(timed, LoggedAt);
    forall e ensures e in Timed(rows, userId) <==> e in timed {
      assert e in Timed(rows, userId) <==> e in multiset(Timed(rows, userId));
    }
    TimedMembers(rows, userId);
  }

  lemma TimedMembers(rows: seq<EmotionLog>, userId: string)
    ensures forall e :: e in Filter(Mine(rows, userId), (e: EmotionLog) => e.loggedAt.Some?) <==>
                        e in rows && e.userId == userId && e.loggedAt.Some?
  {
    var mine := Mine(rows, userId);
    var timed := Filter(mine, (e: EmotionLog) => e.loggedAt.Some?);
    forall e | e in rows && e.userId == userId && e.loggedAt.Some? ensures e in timed {
      var i :| 0 <= i < |rows| && rows[i] == e;
      assert e in mine;
      var j :| 0 <= j < |mine| && mine[j] == e;
    }
    forall e | e in timed ensures e in rows && e.userId == userId && e.loggedAt.Some? {
      var i :| 0 <= i < |timed| && timed[i] == e;
      assert e in mine;
      var j :| 0 <= j < |mine| && mine[j] == e;
    }
  }

  lemma ArrangedOrder(rows: seq<EmotionLog>, userId: string)
    ensures NewestFirst(Untimed(rows, userId) + Timed(rows, userId))
  {
    var u, t := Untimed(rows, userId), Timed(rows, userId);
    var all := u + t;
    TimedSpec(rows, userId);
    forall i, j | 0 <= i < j < |all|
      ensures (all[j].loggedAt.None? ==> all[i].loggedAt.None?)
      ensures (all[i].loggedAt.Some? && all[j].loggedAt.Some? ==> all[i].loggedAt.value >= all[j].loggedAt.value)
    {
      if j < |u| {
        assert all[i] == u[i];
        assert all[j] == u[j];
      } else if i < |u| {
        assert all[i] == u[i];
        assert all[j] == t[j - |u|];
      } else {
        assert all[i] == t[i - |u|];
        assert all[j] == t[j - |u|];
        assert LoggedAt(all[i]) >= LoggedAt(all[j]);
      }
    }
  }

  lemma ArrangedMembers(rows: seq<EmotionLog>, userId: string)
    ensures forall e :: e in Untimed(rows, userId) + Timed(rows, userId) <==> e in rows && e.userId == userId
  {
    TimedSpec(rows, userId);
    forall e ensures e in Untimed(rows, userId) + Timed(rows, userId) <==> e in rows && e.userId == userId {
      if e in rows && e.userId == userId {
        assert e in Mine(rows, userId);
      }
    }
  }

  /** The list holds at most 20 of the user's own logs, none more often
      than the table holds it, untimed first and then newest first; when it holds fewer than 20 it holds them all, and
      a log of the user's left out of a full list comes after its last. */
  lemma RecentLogsSpec(rows: seq<EmotionLog>, userId: string)
    ensures |RecentLogs(rows, userId)| <= 20
    ensures forall i :: 0 <= i < |RecentLogs(rows, userId)| ==>
              RecentLogs(rows, userId)[i] in rows && RecentLogs(rows, userId)[i].userId == userId
    ensures NewestFirst(RecentLogs(rows, userId))
    ensures |RecentLogs(rows, userId)| < 20 ==>
              forall e :: e in rows && e.userId == userId ==> e in RecentLogs(rows, userId)
    ensures |RecentLogs(rows, userId)| == 20 ==>
              forall e :: e in rows && e.userId == userId && e !in RecentLogs(rows, userId) ==>
                Follows(e, RecentLogs(rows, userId)[19])
    ensures multiset(RecentLogs(rows, userId)) <= multiset(rows)
  {
    var all := Untimed(rows, userId) + Timed(rows, userId);
    var r := RecentLogs(rows, userId);
    ArrangedOrder(rows, userId);
    ArrangedMembers(rows, userId);
    assert forall i :: 0 <= i < |r| ==> r[i] == all[i];
    forall i | 0 <= i < |r| ensures r[i] in rows && r[i].userId == userId {
      assert r[i] in all;
    }
    ArrangedMultiset(rows, userId);
    assert all == r + all[|r|..];
    assert multiset(all) == multiset(r) + multiset(all[|r|..]);
    if |r| == 20 {
      forall e | e in rows && e.userId == userId && e !in r ensures Follows(e, r[19]) {
        OmittedFollows(all, r, e);
      }
    }
  }

  /** Arranging the user's logs neither adds nor repeats any. */
  lemma ArrangedMultiset(rows: seq<EmotionLog>, userId: string)
    ensures multiset(Untimed(rows, userId) + Timed(rows, userId)) <= multiset(rows)
  {
    var mine := Mine(rows, userId);
    var timed := Filter(mine, (e: EmotionLog) => e.loggedAt.Some?);
    FilterMultiset(rows, (e: EmotionLog) => e.userId == userId);
    FilterSplit(mine, (e: EmotionLog) => e.loggedAt.None?, (e: EmotionLog) => e.loggedAt.Some?);
    SortDescSpec(timed, LoggedAt);
    assert multiset(mine) <= multiset(rows);
  }

  lemma OmittedFollows(all: seq<EmotionLog>, r: seq<EmotionLog>, e: EmotionLog)
    requires NewestFirst(all)
    requires |r| == 20 && r <= all
    requires e in all && e !in r
    ensures Follows(e, r[19])
  {
    var k :| 0 <= k < |all| && all[k] == e;
    assert k >= 20;
    assert r[19] == all[19];
  }

  /** A fetch: the new list, or the error toast with the old list kept. */
  datatype FetchOutcome = FetchOutcome(logs: seq<EmotionLog>, errorToast: bool)

  /** `fetchEmotionLogs`: a failed read keeps what is shown and says so. */
  function FetchEmotionLogs(table: Option<seq<EmotionLog>>, userId: string, shown: seq<EmotionLog>): (o: FetchOutcome)
    ensures o.errorToast <==> table.None?
    ensures o.errorToast ==> o.logs == shown
    ensures table.Some? ==> |o.logs| <= 20 && NewestFirst(o.logs)
    ensures table.Some? ==> o.logs == RecentLogs(table.value, userId)
  {
    match table
    case None => FetchOutcome(shown, true)
    case Some(rows) => RecentLogsSpec(rows, userId); FetchOutcome(RecentLogs(rows, userId), false)
  }

  datatype Toast = Toast(title: string, description: string)

  /** What `logEmotion` does: the row inserted, the activity recorded, the
      toast shown and whether the list is fetched again. */
  datatype LogOutcome = LogOutcome(
    insertUserId: string, insertEmotion: string,
    activity: Option<(string, string)>, toast: Toast, refetch: bool)

  function LogEmotion(userId: string, emotion: string, insertOk: bool): (o: LogOutcome)
    ensures o.insertUserId == userId && o.insertEmotion == emotion
    ensures o.activity.Some? <==> insertOk
    ensures o.refetch <==> insertOk
    ensures insertOk ==> o.activity.value.0 == "emotion_logged"
                         && o.activity.value.1 == "Logged emotion: " + emotion
                         && o.toast.title == "Emotion logged"
    ensures !insertOk ==> o.toast == Toast("Error", "Failed to log emotion")
  {
    if !insertOk then LogOutcome(userId, emotion, None, Toast("Error", "Failed to log emotion"), false)
    else LogOutcome(userId, emotion, Some(("emotion_logged", "Logged emotion: " + emotion)),
                    Toast("Emotion logged", "You're feeling " + emotion + " today"), true)
  }
}
