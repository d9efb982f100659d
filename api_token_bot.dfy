/**
  The second copy of the statistics bot (create_api_token.py). It shares the action vocabulary,
  the admin gate and the callback shape of `QrStatsBot`, and has its own range list, range
  table, `/start` text, keyboard builder loop and `_send_stats`, which picks no locations at
  all outside admin scope.
 */
module ApiTokenBot {
  import opened Maybe
  import opened Strings
  import opened ScanStats
  import opened QrStatsBot

  /** `Range.list()`: the enum values in declaration order. */
  function RangeList(): (values: seq<string>)
    ensures values == ["today", "yesterday", "7d", "30d", "all"]
  {
    seq(|Ranges|, (i: int) requires 0 <= i < |Ranges| => Ranges[i].Value())
  }

  /** The mapping inside `_range_to_days`, written with 3650 outright. */
  const RangeDaysTable: seq<(string, nat)> :=
    [(Today.Value(), 0), (Yesterday.Value(), 1), (Week.Value(), 7), (Month.Value(), 30), (All.Value(), 3650)]

  /** `_range_to_days(r)`: unknown ranges fall back to 30 days. */
  function RangeToDays(r: string): (days: nat)
    ensures r == "today" ==> days == 0
    ensures r == "yesterday" ==> days == 1
    ensures r == "7d" ==> days == 7
    ensures r == "30d" ==> days == 30
    ensures r == "all" ==> days == 3650
    ensures r !in RangeList() ==> days == 30
  {
    DictGet(RangeDaysTable, r, 30)
  }

  /** Both bots map every label, known or not, to the same number of days. */
  lemma RangeToDaysAgrees(r: string)
    ensures RangeToDays(r) == ToDays(r)
  {
  }

  // ---------------------------------------------------------------------------
  // Commands
  // ---------------------------------------------------------------------------

  const ApiStartBase :=
    "👋 Добро пожаловать!\n\n/stats [d] — статистика по вашей локации (d дней, 30 по умол.)\n/help — доступные команды"
  const ApiStartAdminSection :=
    "\n\n🔐 *Admin*\n/allstats [d] — статистика по всем локациям\n/compare — сравнить локации\n/dashboard — интерактивная панель"

  /** This bot's `/start` message. */
  function ApiStartText(isAdmin: bool): string {
    if isAdmin then ApiStartBase + ApiStartAdminSection else ApiStartBase
  }

  /** An admin's text is the ordinary text followed by the admin section; others see only the ordinary text. */
  lemma ApiStartTextLayout(user: Option<TgUser>)
    ensures IsAdmin(user) ==> ApiStartText(IsAdmin(user)) == ApiStartText(false) + ApiStartAdminSection
    ensures !IsAdmin(user) ==> ApiStartText(IsAdmin(user)) == ApiStartBase
    ensures StartsWith(ApiStartText(IsAdmin(user)), ApiStartBase)
  {
  }

  /** The commands `_register_handlers` installs. */
  datatype Command = Start | Help | Stats | AllStats | Compare | Dashboard

  /** What each command handler does for `user` with the arguments `args`; `/help` answers as `/start`. */
  function HandleCommand(cmd: Command, user: Option<TgUser>, args: seq<string>): seq<Action> {
    match cmd
    case Start => [Reply(ApiStartText(IsAdmin(user)))]
    case Help => [Reply(ApiStartText(IsAdmin(user)))]
    case Stats => [SendStats(ParseDays(args), false, false)]
    case AllStats => AdminOnly(user, [SendStats(ParseDays(args), true, false)])
    case Compare => AdminOnly(user, [SendCompare(false)])
    case Dashboard => AdminOnly(user, [ShowDashboard])
  }

  /**
    `admin_only` denies when there is no user, when the user has no username, and when the
    username is not on the list: each of the gated commands then only sends the refusal.
   */
  lemma GatedCommandsDeny(cmd: Command, user: Option<TgUser>, args: seq<string>)
    requires cmd in {AllStats, Compare, Dashboard}
    requires user.None? || user.value.username.None? || user.value.username.value !in AdminUsernames
    ensures HandleCommand(cmd, user, args) == [Reply(Refusal)]
  {
  }

  /** For an admin the gated commands do their work; `/stats` and `/start` are never refused. */
  lemma CommandsForAdmin(user: Option<TgUser>, args: seq<string>)
    ensures IsAdmin(user) ==> HandleCommand(AllStats, user, args) == [SendStats(ParseDays(args), true, false)]
    ensures IsAdmin(user) ==> HandleCommand(Dashboard, user, args) == [ShowDashboard]
    ensures HandleCommand(Stats, user, args) == [SendStats(ParseDays(args), false, false)]
    ensures HandleCommand(Help, user, args) == HandleCommand(Start, user, args)
    ensures HandleCommand(Start, user, args)[0].Reply?
  {
  }

  // ---------------------------------------------------------------------------
  // Callback queries and the keyboard
  // ---------------------------------------------------------------------------

  /** `cb_handler`, with this bot's range table. */
  function CbHandler(user: Option<TgUser>, data: Option<string>): seq<Action> {
    Dispatch(user, data, RangeToDays)
  }

  /** The two bots answer every callback alike. */
  lemma CbHandlerAgrees(user: Option<TgUser>, data: Option<string>)
    ensures CbHandler(user, data) == QrStatsBot.CbHandler(user, data)
  {
    if data.Some? && data.value != "" {
      var parts := Split(data.value, ':');
      if parts[0] == "range" && |parts| > 1 {
        RangeToDaysAgrees(parts[1]);
      }
    }
  }

  /**
    Only "back" reaches the gated dashboard: "range" and "compare" act alike for every user,
    including one without a username.
   */
  lemma CbNoGateForRangeOrCompare(user: Option<TgUser>, v: string)
    requires ':' !in v
    ensures CbHandler(user, Some("range:" + v)) == [SendStats(RangeToDays(v), true, true), AnswerQuery]
    ensures CbHandler(user, Some("compare:")) == [SendCompare(true), AnswerQuery]
    ensures !IsAdmin(user) ==> CbHandler(user, Some("back")) == [Reply(Refusal), AnswerQuery]
  {
    CbHandlerAgrees(user, Some("range:" + v));
    CbRange(user, v, "");
    RangeToDaysAgrees(v);
    CbHandlerAgrees(user, Some("compare:"));
    CbCompare(user, "");
    assert "compare:" + "" == "compare:";
    CbHandlerAgrees(user, Some("back"));
    CbBack(user);
  }

  /** `_build_dashboard_kb`: a row is appended per range button, then the comparison row. */
  method BuildDashboardKb() returns (rows: seq<seq<Button>>)
    ensures rows == DashboardKeyboard()
  {
    rows := [];
    var i := 0;
    while i < |DashboardButtons|
      invariant 0 <= i <= |DashboardButtons|
      invariant |rows| == i
      invariant forall k :: 0 <= k < i ==> rows[k] == DashboardKeyboard()[k]
    {
      var (text, rng) := DashboardButtons[i];
      rows := rows + [[Button(text, "range:" + rng.Value())]];
      i := i + 1;
    }
    rows := rows + [[CompareButton]];
  }

  /**
    Splitting a keyboard button's callback data on ":" gives "range" and the range value, which
    `_range_to_days` turns into 0, 1, 7, 30 and 3650 days; the last button gives "compare".
   */
  lemma KeyboardRoundTrip(i: nat)
    requires i < 6
    ensures var parts := Split(DashboardKeyboard()[i][0].callbackData, ':');
      && |parts| == 2
      && (i < 5 ==> parts[0] == "range" && RangeToDays(parts[1]) == [0, 1, 7, 30, 3650][i])
      && (i == 5 ==> parts == ["compare", ""])
  {
    var data := DashboardKeyboard()[i][0].callbackData;
    ButtonData(i);
    if i < 5 {
      RangeDays(i);
      SplitPrefixed("range", Ranges[i].Value());
    } else {
      SplitPrefixed("compare", "");
    }
  }

  /** The callback data of the i-th keyboard row. */
  lemma ButtonData(i: nat)
    requires i < 6
    ensures i < 5 ==> DashboardKeyboard()[i][0].callbackData == "range" + [':'] + Ranges[i].Value()
    ensures i == 5 ==> DashboardKeyboard()[i][0].callbackData == "compare" + [':'] + ""
  {
    if i < 5 {
      assert "range:" + Ranges[i].Value() == "range" + [':'] + Ranges[i].Value();
    } else {
      assert "compare:" == "compare" + [':'] + "";
    }
  }

  /** Data made of a word, ":" and a value without ":" splits into the word and the value. */
  lemma SplitPrefixed(word: string, v: string)
    requires ':' !in word && ':' !in v
    ensures Split(word + [':'] + v, ':') == [word, v]
  {
    SplitAtSeparator(word, ':', v);
    SplitNoSeparator(v, ':');
  }

  /** The range buttons in order stand for 0, 1, 7, 30 and 3650 days. */
  lemma RangeDays(i: nat)
    requires i < 5
    ensures ':' !in Ranges[i].Value()
    ensures RangeToDays(Ranges[i].Value()) == [0, 1, 7, 30, 3650][i]
  {
    match Ranges[i]
    case Today =>
    case Yesterday =>
    case Week =>
    case Month =>
    case All =>
  }

  // ---------------------------------------------------------------------------
  // `_send_stats`
  // ---------------------------------------------------------------------------

  /**
    `_send_stats` of this bot: the locations are all of them in admin scope and none otherwise,
    and a line is appended per location in admin scope only; a window whose start date cannot
    be computed raises first.
   */
  method BuildStats(db: Db, today: int, days: nat, adminScope: bool) returns (reply: StatsReply)
    ensures reply.StatsFailed? <==> !WindowFits(today, days)
    ensures reply.StatsText? ==> reply.lines == StatsLines(db, today, days, adminScope)
  {
    if !WindowFits(today, days) {
      return StatsFailed;
    }
    var start := today - days;
    var locations := if adminScope then db.locations else [];
    var totalScans := CountWhere(db.scans, Since(start));
    var parts := [Header(days), TotalLine(totalScans)];
    if adminScope {
      var i := 0;
      while i < |locations|
        invariant 0 <= i <= |locations|
        invariant parts == [Header(days), TotalLine(totalScans)] + LocationLines(locations[..i], db.scans, start, totalScans)
      {
        var loc := locations[i];
        var cnt := CountWhere(db.scans, AtSince(loc.id, start));
        parts := parts + [LocationLine(loc.name, cnt, Share(cnt, totalScans))];
        assert locations[..i + 1][..i] == locations[..i];
        i := i + 1;
      }
      assert locations[..i] == locations;
    }
    reply := StatsText(parts);
  }
}
