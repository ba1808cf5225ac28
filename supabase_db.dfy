/** The computations the database service performs on user records before
    and after talking to the backend: the record of a new user, the update
    written after each message (counters and the day streak), the error
    statistics folded from the error log, and the admin test. The queries
    themselves belong to the backend. */
module SupabaseDb {
  import opened Common

  /** A calendar date, as `datetime.date` holds it. */
  datatype Date = Date(year: int, month: int, day: int)

  /** A UTC moment: its date and the time within that day. */
  datatype Instant = Instant(date: Date, secondOfDay: nat)

  /** `a < b` on dates: year first, then month, then day. */
  predicate Before(a: Date, b: Date)
  {
    || a.year < b.year
    || (a.year == b.year && a.month < b.month)
    || (a.year == b.year && a.month == b.month && a.day < b.day)
  }

  /** `<` on dates is a strict order: no date comes before itself, and the
      order is transitive. So of two dates at most one comes before the
      other. */
  lemma BeforeIsStrictOrder(a: Date, b: Date, c: Date)
    ensures !Before(a, a)
    ensures Before(a, b) ==> !Before(b, a)
    ensures Before(a, b) && Before(b, c) ==> Before(a, c)
  {
  }

  /** A row of the users table; `None` stands for a column the row does not
      carry. */
  datatype User = User(
    telegramId: int,
    username: Option<string>,
    level: Option<string>,
    streakDays: Option<int>,
    totalTokensUsed: Option<int>,
    freeMessagesUsed: Option<int>,
    lastActive: Option<Instant>,
    createdAt: Option<Instant>)

  /** The record `get_or_create_user` inserts for a user it does not find. */
  function NewUser(telegramId: int, username: Option<string>, defaultLevel: string, now: Instant): (u: User)
    ensures u.telegramId == telegramId && u.level == Some(defaultLevel)
    ensures u.freeMessagesUsed == Some(0) && u.lastActive == None && u.createdAt == Some(now)
  {
    User(telegramId, username, Some(defaultLevel), Some(0), Some(0), Some(0), None, Some(now))
  }

  /** `get_or_create_user`: the row found, or else the new record as the
      insert returns it. */
  function GetOrCreateUser(found: Option<User>, telegramId: int, username: Option<string>,
                           defaultLevel: string, now: Instant): (u: User)
    ensures found.Some? ==> u == found.value
    ensures found.None? ==> u.telegramId == telegramId && u.username == username
    ensures found.None? ==> u.freeMessagesUsed == Some(0) && u.lastActive == None
    ensures found.None? ==> u == NewUser(telegramId, username, defaultLevel, now)
  {
    match found
    case Some(row) => row
    case None => NewUser(telegramId, username, defaultLevel, now)
  }

  /** A new user starts at the default level with every counter at zero and
      no activity recorded. */
  lemma NewUserStartsEmpty(telegramId: int, username: Option<string>, defaultLevel: string, now: Instant)
    ensures var u := NewUser(telegramId, username, defaultLevel, now);
      && u.telegramId == telegramId && u.username == username
      && u.level == Some(defaultLevel)
      && u.streakDays == Some(0) && u.totalTokensUsed == Some(0) && u.freeMessagesUsed == Some(0)
      && u.lastActive == None
  {
  }

  /** The streak rule of `increment_user_metrics`: the streak value to write,
      or `None` when the update leaves the streak as it is. It compares the
      day-of-month numbers of the two dates, not the distance between them. */
  function StreakAfter(streakDays: Option<int>, lastActive: Option<Instant>, today: Date): (streak: Option<int>)
    ensures streak.Some? ==> lastActive.Some? && Before(lastActive.value.date, today)
    ensures streak.Some? ==> streak.value == 1 || streak.value == GetOr(streakDays, 0) + 1
  {
    match lastActive
    case None => None
    case Some(last) =>
      if Before(last.date, today) then
        if today.day - last.date.day == 1 then Some(GetOr(streakDays, 0) + 1) else Some(1)
      else None
  }

  /** Without a recorded last activity the streak is not written. */
  lemma StreakWithoutLastActive(streakDays: Option<int>, today: Date)
    ensures StreakAfter(streakDays, None, today) == None
  {
  }

  /** The streak is written exactly when a last activity is recorded and
      lies on an earlier date. */
  lemma StreakWrittenOnLaterDay(streakDays: Option<int>, lastActive: Option<Instant>, today: Date)
    ensures StreakAfter(streakDays, lastActive, today).Some? <==>
      lastActive.Some? && Before(lastActive.value.date, today)
  {
  }

  /** On a later date whose day number is one more, the streak grows by one;
      on a later date with any other day number it restarts at 1. */
  lemma StreakOnLaterDay(streakDays: Option<int>, last: Instant, today: Date)
    requires Before(last.date, today)
    ensures today.day - last.date.day == 1 ==> StreakAfter(streakDays, Some(last), today) == Some(GetOr(streakDays, 0) + 1)
    ensures today.day - last.date.day != 1 ==> StreakAfter(streakDays, Some(last), today) == Some(1)
  {
  }

  /** Consecutive calendar days across a month end restart the streak:
      31 January, then 1 February. */
  lemma StreakRestartsAtMonthEnd(streakDays: Option<int>, secondOfDay: nat)
    ensures StreakAfter(streakDays, Some(Instant(Date(2024, 1, 31), secondOfDay)), Date(2024, 2, 1)) == Some(1)
  {
  }

  /** Days a month apart with consecutive day numbers extend the streak:
      5 March, then 6 April. */
  lemma StreakGrowsAcrossMonthGap(streak: int, secondOfDay: nat)
    ensures StreakAfter(Some(streak), Some(Instant(Date(2024, 3, 5), secondOfDay)), Date(2024, 4, 6)) == Some(streak + 1)
  {
  }

  /** A value written to a column by the metrics update. */
  datatype Value = IntValue(n: int) | TimeValue(t: Instant)

  const TOTAL_TOKENS_USED := "total_tokens_used"
  const FREE_MESSAGES_USED := "free_messages_used"
  const STREAK_DAYS := "streak_days"
  const LAST_ACTIVE := "last_active"

  /** The update record `increment_user_metrics` writes for `user` at
      `now`: both counters moved on, the streak when the rule gives one, and
      the time of this activity. */
  method MetricsUpdate(user: User, tokensUsed: int, now: Instant) returns (update: map<string, Value>)
    ensures var streak := StreakAfter(user.streakDays, user.lastActive, now.date);
      update.Keys == {TOTAL_TOKENS_USED, FREE_MESSAGES_USED, LAST_ACTIVE} + (if streak.Some? then {STREAK_DAYS} else {})
    ensures update[TOTAL_TOKENS_USED] == IntValue(GetOr(user.totalTokensUsed, 0) + tokensUsed)
    ensures update[FREE_MESSAGES_USED] == IntValue(GetOr(user.freeMessagesUsed, 0) + 1)
    ensures STREAK_DAYS in update ==>
      update[STREAK_DAYS] == IntValue(StreakAfter(user.streakDays, user.lastActive, now.date).value)
    ensures update[LAST_ACTIVE] == TimeValue(now)
  {
    update := map[
      TOTAL_TOKENS_USED := IntValue(GetOr(user.totalTokensUsed, 0) + tokensUsed),
      FREE_MESSAGES_USED := IntValue(GetOr(user.freeMessagesUsed, 0) + 1)
    ];
    if user.lastActive.Some? {
      var lastDate := user.lastActive.value.date;
      var today := now.date;
      if Before(lastDate, today) {
        if today.day - lastDate.day == 1 {
          update := update[STREAK_DAYS := IntValue(GetOr(user.streakDays, 0) + 1)];
        } else {
          update := update[STREAK_DAYS := IntValue(1)];
        }
      }
    }
    update := update[LAST_ACTIVE := TimeValue(now)];
  }

  /** The first update of a new user: one message, the tokens of this
      message, and no streak yet. */
  lemma NewUserFirstActivity(telegramId: int, username: Option<string>, defaultLevel: string, created: Instant, now: Instant)
    ensures var u := NewUser(telegramId, username, defaultLevel, created);
      && StreakAfter(u.streakDays, u.lastActive, now.date) == None
      && GetOr(u.freeMessagesUsed, 0) + 1 == 1
      && GetOr(u.totalTokensUsed, 0) == 0
  {
  }

  /** A row of the error log as the statistics query returns it. The
      category is `None` for an entry logged without one; the query asks for
      no count column, so `count` is normally absent. */
  datatype ErrorRow = ErrorRow(category: Option<string>, count: Option<int>)

  /** The `error_stats` map of `get_user_stats`: one key per category that
      occurs, holding the count (0 when absent) of the last row with that
      category. */
  method ErrorStats(rows: seq<ErrorRow>) returns (stats: map<Option<string>, int>)
    ensures stats.Keys == set i | 0 <= i < |rows| :: rows[i].category
    ensures forall i :: 0 <= i < |rows| && (forall j :: i < j < |rows| ==> rows[j].category != rows[i].category) ==>
      stats[rows[i].category] == GetOr(rows[i].count, 0)
  {
    stats := map[];
    if |rows| > 0 {
      var k := 0;
      while k < |rows|
        invariant 0 <= k <= |rows|
        invariant stats.Keys == set i | 0 <= i < k :: rows[i].category
        invariant forall i :: 0 <= i < k && (forall j :: i < j < k ==> rows[j].category != rows[i].category) ==>
          stats[rows[i].category] == GetOr(rows[i].count, 0)
      {
        stats := stats[rows[k].category := GetOr(rows[k].count, 0)];
        k := k + 1;
      }
    }
  }

  /** `is_admin`: the id is one of the configured admin ids. */
  function IsAdmin(adminIds: seq<int>, telegramId: int): (r: bool)
    ensures r <==> exists i :: 0 <= i < |adminIds| && adminIds[i] == telegramId
  {
    telegramId in adminIds
  }

  /** With no admin ids configured, as by default, nobody is an admin. */
  lemma NobodyIsAdminByDefault(telegramId: int)
    ensures !IsAdmin([], telegramId)
  {
  }
}
