/**
  The command logic of the QR-statistics Telegram bot (run_telegram_bot.py): the range table,
  the admin allow-list gate, `/stats [d]` argument parsing, the `/start` text, the callback
  dispatch, the dashboard keyboard, and the two report builders that loop over the locations.

  A handler's effect is the list of actions it takes, in order; sending a report is the action
  `SendStats`/`SendCompare`, whose contents the methods `BuildStats` and `BuildCompare` compute.
 */
module QrStatsBot {
  import opened Maybe
  import opened Strings
  import opened ScanStats

  // ---------------------------------------------------------------------------
  // Ranges
  // ---------------------------------------------------------------------------

  /** The `Range` enum, in declaration order. */
  datatype Range = Today | Yesterday | Week | Month | All {
    function Value(): string {
      match this
      case Today => "today"
      case Yesterday => "yesterday"
      case Week => "7d"
      case Month => "30d"
      case All => "all"
    }
  }

  const Ranges: seq<Range> := [Today, Yesterday, Week, Month, All]

  /** `dict.get(key, default)` on a dict literal, kept as its list of (key, value) entries. */
  function DictGet(table: seq<(string, nat)>, key: string, default: nat): (v: nat)
    ensures (forall i :: 0 <= i < |table| ==> table[i].0 != key) ==> v == default
    ensures (exists i :: 0 <= i < |table| && table[i].0 == key) ==>
              exists i :: 0 <= i < |table| && table[i].0 == key && v == table[i].1
  {
    if |table| == 0 then default
    else if table[0].0 == key then table[0].1
    else
      var v := DictGet(table[1..], key, default);
      assert forall i :: 1 <= i < |table| ==> table[i] == table[1..][i - 1];
      v
  }

  /** The mapping inside `Range.to_days`; "all time" is ten years of 365 days. */
  const DaysTable: seq<(string, nat)> :=
    [(Today.Value(), 0), (Yesterday.Value(), 1), (Week.Value(), 7), (Month.Value(), 30), (All.Value(), 10 * 365)]

  /** `Range.to_days(key)`: unknown labels fall back to 30 days. */
  function ToDays(key: string): (days: nat)
    ensures key == "today" ==> days == 0
    ensures key == "yesterday" ==> days == 1
    ensures key == "7d" ==> days == 7
    ensures key == "30d" ==> days == 30
    ensures key == "all" ==> days == 3650
    ensures key !in ["today", "yesterday", "7d", "30d", "all"] ==> days == 30
  {
    DictGet(DaysTable, key, 30)
  }

  /** The enum values are distinct, and their day counts grow strictly in declaration order. */
  lemma RangesOrdered(i: nat, j: nat)
    requires i < j < |Ranges|
    ensures Ranges[i].Value() != Ranges[j].Value()
    ensures ToDays(Ranges[i].Value()) < ToDays(Ranges[j].Value())
  {
  }

  // ---------------------------------------------------------------------------
  // The admin gate
  // ---------------------------------------------------------------------------

  const AdminUsernames: set<string> := {"Iforce706", "subanovsh"}

  /** Telegram's `effective_user`: the username is optional. */
  datatype TgUser = TgUser(username: Option<string>)

  /** `user is not None and user.username in ADMIN_USERNAMES`. */
  predicate IsAdmin(user: Option<TgUser>) {
    user.Some? && user.value.username.Some? && user.value.username.value in AdminUsernames
  }

  const Refusal := "⛔ Недостаточно прав."
  const ErrorNotice := "Произошла ошибка. Администратор уведомлен."

  /** What a handler does, in order. */
  datatype Action =
    | SendStats(days: nat, adminScope: bool, edit: bool)
    | SendCompare(edit: bool)
    | ShowDashboard
    | Reply(text: string)
    | AnswerQuery

  /** A privileged action: one only admins may cause. */
  predicate Privileged(a: Action) {
    (a.SendStats? && a.adminScope) || a.SendCompare? || a.ShowDashboard?
  }

  /** `@admin_only`: run the wrapped handler for an admin, otherwise only send the refusal. */
  function AdminOnly(user: Option<TgUser>, handler: seq<Action>): seq<Action> {
    if user.None? || user.value.username.None? || user.value.username.value !in AdminUsernames then
      [Reply(Refusal)]
    else
      handler
  }

  /** The gate runs the handler exactly for admins, and a refused user gets the refusal alone. */
  lemma AdminOnlyGate(user: Option<TgUser>, handler: seq<Action>)
    ensures IsAdmin(user) ==> AdminOnly(user, handler) == handler
    ensures !IsAdmin(user) ==> AdminOnly(user, handler) == [Reply(Refusal)]
  {
  }

  /** Fail-closed: without a user, without a username, or with a foreign one, nothing privileged runs. */
  lemma AdminOnlyFailsClosed(user: Option<TgUser>, handler: seq<Action>)
    requires user.None? || user.value.username.None? || user.value.username.value !in AdminUsernames
    ensures forall k :: 0 <= k < |AdminOnly(user, handler)| ==> !Privileged(AdminOnly(user, handler)[k])
  {
  }

  // ---------------------------------------------------------------------------
  // Commands
  // ---------------------------------------------------------------------------

  /** The day argument of `/stats` and `/allstats`: the first argument if it is all digits, else 30. */
  function ParseDays(args: seq<string>): nat {
    if |args| > 0 && IsDigits(args[0]) then ParseNat(args[0]) else 30
  }

  /** A rendered number reads back as itself; whatever follows the first argument is ignored. */
  lemma ParseDaysRoundTrip(n: nat, rest: seq<string>)
    ensures ParseDays([NatToString(n)] + rest) == n
  {
    ParseNatToString(n);
  }

  /**
    A day argument longer than the whole representable calendar, typed on any representable
    day, makes `_send_stats` raise: the admin gets the error notice instead of statistics.
   */
  lemma OversizedDayArgumentFails(n: nat, rest: seq<string>, today: int)
    requires MinDay <= today <= MaxDay && n > MaxDay - MinDay
    ensures !WindowFits(today, ParseDays([NatToString(n)] + rest))
  {
    ParseDaysRoundTrip(n, rest);
  }

  /** The default window and every window of the dashboard fit once today is past day 3650. */
  lemma DefaultWindowsFit(today: int, i: nat)
    requires 3650 + MinDay <= today && i < |Ranges|
    ensures WindowFits(today, 30) && WindowFits(today, ToDays(Ranges[i].Value()))
  {
    match Ranges[i]
    case Today =>
    case Yesterday =>
    case Week =>
    case Month =>
    case All =>
  }

  /** No argument, or a first argument that is not all digits, means 30 days. */
  lemma ParseDaysDefault(args: seq<string>)
    requires |args| == 0 || !IsDigits(args[0])
    ensures ParseDays(args) == 30
  {
  }

  const StartBase :=
    "👋 Добро пожаловать!\n\n/stats [d] — статистика (d дней, 30 по умолчанию)\n/help — список команд"
  const StartAdminSection :=
    "\n\n🔐 *Admin*\n/allstats [d] — по всем локациям\n/compare — сравнить локации\n/dashboard — интерактивная панель"

  /** The `/start` message. */
  function StartText(isAdmin: bool): string {
    if isAdmin then StartBase + StartAdminSection else StartBase
  }

  /** An admin's text is the ordinary text followed by the admin section; others see only the ordinary text. */
  lemma StartTextLayout(user: Option<TgUser>)
    ensures IsAdmin(user) ==> StartText(IsAdmin(user)) == StartText(false) + StartAdminSection
    ensures !IsAdmin(user) ==> StartText(IsAdmin(user)) == StartBase
    ensures StartsWith(StartText(IsAdmin(user)), StartBase)
  {
  }

  function CmdStart(user: Option<TgUser>): seq<Action> {
    [Reply(StartText(IsAdmin(user)))]
  }

  /** `/help` is `/start`. */
  function CmdHelp(user: Option<TgUser>): seq<Action> {
    CmdStart(user)
  }

  function CmdStats(args: seq<string>): seq<Action> {
    [SendStats(ParseDays(args), false, false)]
  }

  function CmdAllStats(user: Option<TgUser>, args: seq<string>): seq<Action> {
    AdminOnly(user, [SendStats(ParseDays(args), true, false)])
  }

  function CmdCompare(user: Option<TgUser>): seq<Action> {
    AdminOnly(user, [SendCompare(false)])
  }

  function CmdDashboard(user: Option<TgUser>): seq<Action> {
    AdminOnly(user, [ShowDashboard])
  }

  /**
    `/stats` is open to everyone and never sends per-location lines; `/allstats`, `/compare` and
    `/dashboard` do their work for an admin and only refuse anyone else. `/help` answers like `/start`.
   */
  lemma CommandsGated(user: Option<TgUser>, args: seq<string>)
    ensures CmdStats(args) == [SendStats(ParseDays(args), false, false)]
    ensures !Privileged(CmdStats(args)[0])
    ensures CmdHelp(user) == CmdStart(user)
    ensures IsAdmin(user) ==> (&& CmdAllStats(user, args) == [SendStats(ParseDays(args), true, false)]
                               && CmdCompare(user) == [SendCompare(false)]
                               && CmdDashboard(user) == [ShowDashboard])
    ensures !IsAdmin(user) ==> (&& CmdAllStats(user, args) == [Reply(Refusal)]
                                && CmdCompare(user) == [Reply(Refusal)]
                                && CmdDashboard(user) == [Reply(Refusal)])
  {
    AdminOnlyGate(user, [SendStats(ParseDays(args), true, false)]);
    AdminOnlyGate(user, [SendCompare(false)]);
    AdminOnlyGate(user, [ShowDashboard]);
  }

  // ---------------------------------------------------------------------------
  // Callback queries
  // ---------------------------------------------------------------------------

  /**
    `cb_handler` with the day table `toDays`: no data means no action at all; otherwise the data
    is split on ":", "range" sends admin-scope stats for the first argument, "compare" the
    comparison, "back" the gated dashboard, and each then answers the query. "range" without
    an argument fails on `arg[0]`, and the error handler replies instead of the answer.
   */
  function Dispatch(user: Option<TgUser>, data: Option<string>, toDays: string -> nat): seq<Action> {
    if data.None? || data.value == "" then []
    else
      var parts := Split(data.value, ':');
      var cmd := parts[0];
      var arg := parts[1..];
      if cmd == "range" then
        if |arg| == 0 then [Reply(ErrorNotice)] else [SendStats(toDays(arg[0]), true, true), AnswerQuery]
      else if cmd == "compare" then [SendCompare(true), AnswerQuery]
      else if cmd == "back" then BackFromCallback(user)
      else [AnswerQuery]
  }

  /**
    `cmd_dashboard` reached from a callback. The gate refuses through `effective_message`, after
    which the query is answered; but for an admin the dashboard replies through `update.message`,
    which a callback update does not carry, so the call raises, the error handler sends its
    notice, and `query.answer()` is never reached.
   */
  function BackFromCallback(user: Option<TgUser>): seq<Action> {
    if IsAdmin(user) then [Reply(ErrorNotice)] else CmdDashboard(user) + [AnswerQuery]
  }

  function CbHandler(user: Option<TgUser>, data: Option<string>): seq<Action> {
    Dispatch(user, data, ToDays)
  }

  /** Missing or empty data returns before the query is answered. */
  lemma CbEmptyData(user: Option<TgUser>, data: Option<string>)
    requires data.None? || data.value == ""
    ensures CbHandler(user, data) == []
  {
  }

  /** "range:<v>" sends the admin-scope statistics for `to_days(v)` and answers the query. */
  lemma CbRange(user: Option<TgUser>, v: string, rest: string)
    requires ':' !in v
    ensures CbHandler(user, Some("range:" + v)) == [SendStats(ToDays(v), true, true), AnswerQuery]
    ensures CbHandler(user, Some("range:" + v + ":" + rest)) == [SendStats(ToDays(v), true, true), AnswerQuery]
  {
    assert "range:" + v == "range" + [':'] + v;
    SplitAtSeparator("range", ':', v);
    SplitNoSeparator(v, ':');
    assert "range:" + v + ":" + rest == "range" + [':'] + (v + [':'] + rest);
    SplitAtSeparator("range", ':', v + [':'] + rest);
    SplitAtSeparator(v, ':', rest);
  }

  /** Bare "range" has no argument: the error notice is sent and the query is not answered. */
  lemma CbRangeWithoutArgument(user: Option<TgUser>)
    ensures CbHandler(user, Some("range")) == [Reply(ErrorNotice)]
  {
    SplitNoSeparator("range", ':');
  }

  /** "compare" with any argument sends the comparison and answers the query. */
  lemma CbCompare(user: Option<TgUser>, rest: string)
    ensures CbHandler(user, Some("compare:" + rest)) == [SendCompare(true), AnswerQuery]
    ensures CbHandler(user, Some("compare")) == [SendCompare(true), AnswerQuery]
  {
    assert "compare:" + rest == "compare" + [':'] + rest;
    SplitAtSeparator("compare", ':', rest);
    SplitNoSeparator("compare", ':');
  }

  /** An unknown action only answers the query. */
  lemma CbUnknownAction(user: Option<TgUser>, data: string)
    requires data != ""
    requires Split(data, ':')[0] !in ["range", "compare", "back"]
    ensures CbHandler(user, Some(data)) == [AnswerQuery]
  {
  }

  /**
    Only "back" looks at who is asking: every other callback does the same for every user, so
    admin-scope statistics and the comparison are reachable without the admin gate.
   */
  lemma CbUngatedExceptBack(u1: Option<TgUser>, u2: Option<TgUser>, data: Option<string>)
    requires data.Some? && data.value != "" ==> Split(data.value, ':')[0] != "back"
    ensures CbHandler(u1, data) == CbHandler(u2, data)
  {
  }

  /**
    "back" is the gated dashboard: a refused user gets the refusal and the answer, while an
    admin's dashboard fails in a callback and ends in the error notice, unanswered.
   */
  lemma CbBack(user: Option<TgUser>)
    ensures IsAdmin(user) ==> CbHandler(user, Some("back")) == [Reply(ErrorNotice)]
    ensures !IsAdmin(user) ==> CbHandler(user, Some("back")) == [Reply(Refusal), AnswerQuery]
  {
    SplitNoSeparator("back", ':');
    CommandsGated(user, []);
  }

  // ---------------------------------------------------------------------------
  // The dashboard keyboard
  // ---------------------------------------------------------------------------

  datatype Button = Button(text: string, callbackData: string)

  /** The button captions and ranges of the dashboard, in order. */
  const DashboardButtons: seq<(string, Range)> :=
    [("Сегодня", Today), ("Вчера", Yesterday), ("7 дней", Week), ("30 дней", Month), ("Все время", All)]

  const CompareButton := Button("Сравнить локации", "compare:")

  /** `_dashboard_keyboard`: one row per range button, then the comparison button. */
  function DashboardKeyboard(): (rows: seq<seq<Button>>)
    ensures |rows| == 6
    ensures forall i :: 0 <= i < 6 ==> |rows[i]| == 1
    ensures forall i :: 0 <= i < 5 ==>
              rows[i][0] == Button(DashboardButtons[i].0, "range:" + Ranges[i].Value())
    ensures rows[5][0] == CompareButton
  {
    var ranges := seq(|DashboardButtons|, (i: int) requires 0 <= i < |DashboardButtons| =>
                        [Button(DashboardButtons[i].0, "range:" + DashboardButtons[i].1.Value())]);
    ranges + [[CompareButton]]
  }

  /**
    Every button of the dashboard round-trips through the callback handler: the i-th range
    button sends the statistics of its range (0, 1, 7, 30 and 3650 days), the last one the
    comparison; all of them answer the query, whoever presses them.
   */
  lemma DashboardRoundTrip(user: Option<TgUser>, i: nat)
    requires i < 6
    ensures var data := DashboardKeyboard()[i][0].callbackData;
      i < 5 ==> CbHandler(user, Some(data)) == [SendStats([0, 1, 7, 30, 3650][i], true, true), AnswerQuery]
    ensures i == 5 ==> CbHandler(user, Some(DashboardKeyboard()[i][0].callbackData)) == [SendCompare(true), AnswerQuery]
  {
    if i < 5 {
      CbRange(user, Ranges[i].Value(), "");
    } else {
      CbCompare(user, "");
      assert "compare:" + "" == "compare:";
    }
  }

  // ---------------------------------------------------------------------------
  // The two reports, built by loops as `_send_stats` and `_send_compare` do
  // ---------------------------------------------------------------------------

  /**
    `_send_stats`: the header and total, then in admin scope one line per location, appended in
    turn; a window whose start date cannot be computed raises before any line is built.
   */
  method BuildStats(db: Db, today: int, days: nat, adminScope: bool) returns (reply: StatsReply)
    ensures reply.StatsFailed? <==> !WindowFits(today, days)
    ensures reply.StatsText? ==> reply.lines == StatsLines(db, today, days, adminScope)
  {
    if !WindowFits(today, days) {
      return StatsFailed;
    }
    var start := today - days;
    var total := CountWhere(db.scans, Since(start));
    var lines := [Header(days), TotalLine(total)];
    if adminScope {
      var i := 0;
      while i < |db.locations|
        invariant 0 <= i <= |db.locations|
        invariant lines == [Header(days), TotalLine(total)] + LocationLines(db.locations[..i], db.scans, start, total)
      {
        var loc := db.locations[i];
        var cnt := CountWhere(db.scans, AtSince(loc.id, start));
        lines := lines + [LocationLine(loc.name, cnt, Share(cnt, total))];
        assert db.locations[..i + 1][..i] == db.locations[..i];
        i := i + 1;
      }
      assert db.locations[..i] == db.locations;
    }
    reply := StatsText(lines);
  }

  /** `_send_compare`: the title, then for each window its label, one count per location and a blank line. */
  method BuildCompare(db: Db, today: int) returns (sections: seq<CompareLine>)
    ensures sections == CompareLines(db, today)
  {
    sections := [CompareTitle];
    var w := 0;
    while w < |CompareWindows|
      invariant 0 <= w <= |CompareWindows|
      invariant sections == [CompareTitle] + CompareSections(db, today, w)
    {
      var (caption, delta) := CompareWindows[w];
      var counts := BuildCountLines(db.locations, db.scans, today, delta);
      sections := sections + ([WindowLabel(caption)] + counts + [Blank]);
      w := w + 1;
    }
  }

  /** The inner loop of `_send_compare`: one count line per location for the window `delta`. */
  method BuildCountLines(locs: seq<Location>, scans: seq<Scan>, today: int, delta: nat) returns (lines: seq<CompareLine>)
    ensures lines == CountLines(locs, scans, today, delta)
  {
    lines := [];
    var j := 0;
    while j < |locs|
      invariant 0 <= j <= |locs|
      invariant lines == CountLines(locs[..j], scans, today, delta)
    {
      var loc := locs[j];
      var cnt := if delta == 0 then CountWhere(scans, AtOn(loc.id, today))
                 else CountWhere(scans, AtSince(loc.id, today - delta));
      lines := lines + [LocationCount(loc.name, cnt)];
      assert locs[..j + 1][..j] == locs[..j];
      j := j + 1;
    }
    assert locs[..j] == locs;
  }
}
