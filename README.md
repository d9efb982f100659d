# gos_landing_page: a verified model of its deterministic core

This project models the self-contained rules inside the gos_landing_page site: a Django landing
page with QR-code scan tracking, two Telegram statistics bots, furniture-catalogue maintenance
commands, and two small browser scripts. The Dafny here covers:

- **Scan statistics** (`ScanStats`, `QrStatsBot`, `ApiTokenBot`, `LocationAdmin`):
  - counting scans per time window, with days as `date.toordinal()` numbers and "today" passed in;
  - the error notice when a window would start before 0001-01-01;
  - percentage shares over `real`;
  - the admin allow-list gate;
  - parsing the `/stats [d]` argument;
  - the dashboard keyboard and how its callback data is dispatched;
  - the `/start` text;
  - the admin "users" column, the QR visit URL, the QR preview and the statistics page windows
    with the hourly distribution;
  - the read-only scan and phone-click admins.
- **Catalogue maintenance commands** (`FixSlugs`, `KitchenDescriptions`, `KitchenNames`,
  `FurnitureFromJson`, `FurnitureData`, `FurnitureFromImages`). Each is an imperative pass over an
  in-memory `Catalog.Store`, a class holding the FurnitureItem and FurnitureCategory tables. Each
  pass is written as methods with loops. Each method is proved equal to a specification function,
  and the source's promises are proved about that function.
- **Browser scripts**:
  - `PhoneTracking` models the `getCookie` parser and the send/navigate decision of a phone click;
  - `SeeIt` models the room planner's selection and z-order state as a `Room` class. Its
    invariant is that at most one piece is selected, and that piece is the active one.

Several things are passed in as function parameters, because the source relies on them without
defining them:
- Django's `slugify`;
- `decodeURIComponent`, which may fail;
- the save-time slug hook of the FurnitureItem model;
- the file copy, which may fail;
- `reverse()`.

A Python `dict` is a sequence of (key, value) pairs in insertion order (`Dicts`). A Django
`objects.get` is `Maybe.Lookup`: no row, one row, or several rows.

## Model

| member | source | states |
|---|---|---|
| Catalog.ItemSlug | main/management/commands/fix_furniture_slugs.py:22-24 | the `item-<pk>` fallback slug is never empty |
| Catalog.CategoriesNamed | main/management/commands/update_furniture_from_json.py:48 | lists, in ascending order, exactly the positions of the categories with the given name |
| Catalog.GetCategory | main/management/commands/update_furniture_from_json.py:47-58 | `objects.get(name=...)`: NotFound iff no category has the name; Found gives the one category with that name; Multiple only when two categories share it |
| Catalog.GetItem | main/management/commands/update_furniture_from_json.py:75-76 | `objects.get(name=..., category=...)`: NotFound iff no item of the category has the name; Found is the unique such item; Multiple only when there are two |
| Catalog.Store.constructor | main/management/commands/fix_furniture_slugs.py:13 | a store over tables whose primary keys are distinct holds exactly those tables |
| Catalog.Store.NextItemId | main/management/commands/create_furniture_from_images.py:79 | the key `objects.create` assigns exceeds every existing item key |
| Catalog.MaxItemId | main/management/commands/create_furniture_from_images.py:79-88 | an item key larger than every key in the table |
| Catalog.MaxCategoryId | main/management/commands/update_furniture_data.py:33-41 | a category key larger than every key in the table |
| Catalog.MaxKey | main/management/commands/create_furniture_from_images.py:79-88 | one past the largest key, at least 1: larger than every key present |
| Catalog.Saved | main/management/commands/update_kitchen_names.py:124-126 | `save()` through the save-time hook: an empty slug is filled by the hook, a non-empty one is kept, and no other column changes |
| Dicts.Keys | main/management/commands/update_kitchen_descriptions.py:85 | the keys in insertion order, one per entry |
| Dicts.Get | main/management/commands/update_furniture_from_json.py:62-64 | `d.get(k)` is None iff no entry has key k, and otherwise is that entry's value |
| Dicts.Put | main/management/commands/update_kitchen_descriptions.py:60 | assigning an existing key keeps the key order; a new key is appended at the end |
| Dicts.PutGet | main/management/commands/update_kitchen_descriptions.py:60 | after `d[k] = v`, keys stay distinct, k reads back v and every other key is unchanged |
| Strings.TrimStart | main/management/commands/update_kitchen_descriptions.py:44 | removes exactly the leading whitespace: the result is a suffix, everything dropped is whitespace, and it starts with a non-space |
| Strings.TrimEnd | main/management/commands/update_kitchen_descriptions.py:48 | removes exactly the trailing whitespace: the result is a prefix, everything dropped is whitespace, and it ends with a non-space |
| Strings.TrimEmptyIff | main/management/commands/update_kitchen_descriptions.py:44-45 | `not s.strip()` holds iff every character of s is whitespace |
| Strings.TrimUnchanged | main/management/commands/update_kitchen_descriptions.py:48-51 | a string that neither starts nor ends with whitespace is its own strip |
| Strings.TrimIdempotent | main/management/commands/update_kitchen_descriptions.py:48-51 | stripping an already stripped string changes nothing |
| Strings.JoinTwo | main/admin.py:69 | `", ".join` of two labels is the first, the separator, then the second |
| Strings.Split | main/management/commands/run_telegram_bot.py:159 | `str.split(sep)` gives at least one part, no part contains sep, and joining the parts with sep gives back the input |
| Strings.SplitNoSeparator | static/js/phone-tracking.js:5 | a string without the separator splits into itself alone |
| Strings.SplitAtSeparator | main/management/commands/run_telegram_bot.py:159 | splitting `a + sep + b`, with sep not in a, gives a followed by the parts of b |
| Strings.RStripChar | main/admin.py:127 | `rstrip("/")`: a prefix of the input that does not end in "/", and only "/" characters were removed |
| Strings.Lower | main/management/commands/update_furniture_data.py:37 | `lower()` keeps the length and lowers each character |
| Strings.DigitChar | main/admin.py:128 | each decimal digit renders as a digit character |
| Strings.NatToString | main/admin.py:128 | a number renders as a non-empty run of digits |
| Strings.ParseNatToString | main/management/commands/run_telegram_bot.py:128-130 | `int()` of a rendered number gives the number back |
| Strings.NatToStringInjective | main/admin.py:128 | different numbers render differently |
| ScanStats.CountWhere | main/management/commands/run_telegram_bot.py:180 | `filter(...).count()` never exceeds the number of scans |
| ScanStats.CountMonotone | main/management/commands/run_telegram_bot.py:187 | a filter that admits more scans counts at least as many |
| ScanStats.CountDisjointUnion | main/admin.py:155-157 | the counts of two disjoint filters add up to the count of their union |
| ScanStats.WiderWindowCountsMore | main/management/commands/run_telegram_bot.py:179-187 | an earlier start date counts at least as many scans, in total and per location |
| ScanStats.HitsOnce | main/models.py:18 | with distinct location keys, a scan lands in exactly one location's window count when its location exists and its date is in the window, and in none otherwise |
| ScanStats.PerLocationCountsSumToTotal | main/management/commands/run_telegram_bot.py:179-189 | since every scan has exactly one location, the per-location counts over `date >= today - d` add up to the total over the same window |
| ScanStats.ShareIsPercentage | main/management/commands/run_telegram_bot.py:188 | the share is 0 for an empty total; otherwise share x total = count x 100; it is never negative, and at most 100 when the count is part of the total |
| ScanStats.Share | main/management/commands/run_telegram_bot.py:188 | the percentage of one location; its meaning is stated by ShareIsPercentage |
| ScanStats.LocationLines | main/management/commands/run_telegram_bot.py:185-189 | one line per location; their contents are stated by LocationLinesAt |
| ScanStats.LocationLinesAt | main/management/commands/run_telegram_bot.py:186-189 | the i-th line carries the i-th location's name, its windowed count and its share of the total |
| ScanStats.LocationLinesCountSum | main/management/commands/run_telegram_bot.py:185-189 | the counts on the location lines add up to the per-location window counts |
| ScanStats.LocationLinesShareSum | main/management/commands/run_telegram_bot.py:188 | the shares on the location lines add up to the share of the summed counts |
| ScanStats.CountSumSkipsHeader | main/management/commands/run_telegram_bot.py:181-184 | the title and total lines contribute no count and no share |
| ScanStats.StatsLinesNonAdmin | main/management/commands/run_telegram_bot.py:181-185 | outside admin scope the reply is exactly the title line and the total line |
| ScanStats.StatsLinesAdmin | main/management/commands/run_telegram_bot.py:179-189 | in admin scope: title, total, then one line per location; the location counts sum to the total; a non-zero total gives shares summing to 100; a zero total gives every share 0 |
| ScanStats.ZeroTotalShares | main/management/commands/create_api_token.py:178 | with no scans in the window, every location line shows share 0 |
| ScanStats.StatsLines | main/management/commands/run_telegram_bot.py:179-189 | the `/stats` lines; their layout, counts and shares are stated by StatsLinesNonAdmin, StatsLinesAdmin and ZeroTotalShares |
| ScanStats.WindowFits | main/management/commands/run_telegram_bot.py:179 | whether `today - timedelta(days=d)` yields a date; what happens when it does not is stated by BuildStats and OversizedDayArgumentFails |
| ScanStats.CountLines | main/management/commands/run_telegram_bot.py:204-210 | one line per location, in order, holding its count for the window; delta 0 counts `date == today`, other deltas count `date >= today - delta` |
| ScanStats.CompareSections | main/management/commands/run_telegram_bot.py:196-211 | each window contributes its label, one line per location and a blank line |
| ScanStats.CompareSectionsAt | main/management/commands/run_telegram_bot.py:196-211 | where window w's label, its location lines and its closing blank line sit among the sections |
| ScanStats.CompareLinesLayout | main/management/commands/run_telegram_bot.py:195-211 | the comparison is the title, then four sections of label, per-location counts and a blank line, at fixed offsets |
| ScanStats.CompareWindowsNested | main/management/commands/run_telegram_bot.py:196-210 | per location, the "today" count is at most the "Вчера" count, which is at most the 7-day count, which is at most the 30-day count |
| ScanStats.CompareLines | main/management/commands/run_telegram_bot.py:192-212 | the comparison text; its layout and the nesting of its windows are stated by CompareLinesLayout and CompareWindowsNested |
| QrStatsBot.DictGet | main/management/commands/run_telegram_bot.py:55 | `mapping.get(label, default)`: the default when no entry has the key, else the value of an entry with that key |
| QrStatsBot.ToDays | main/management/commands/run_telegram_bot.py:46-55 | "today" gives 0, "yesterday" 1, "7d" 7, "30d" 30, "all" 3650; every other label gives 30 |
| QrStatsBot.RangesOrdered | main/management/commands/run_telegram_bot.py:39-55 | the range labels are distinct, and in declaration order they map to strictly increasing day counts |
| QrStatsBot.AdminOnly | main/management/commands/run_telegram_bot.py:63-76 | the `admin_only` wrapper; stated by AdminOnlyGate and AdminOnlyFailsClosed |
| QrStatsBot.AdminOnlyGate | main/management/commands/run_telegram_bot.py:63-76 | the wrapped handler runs iff a user is present and their username is in ADMIN_USERNAMES; otherwise the only effect is the refusal reply |
| QrStatsBot.AdminOnlyFailsClosed | main/management/commands/run_telegram_bot.py:70-73 | without a user, without a username, or with a username off the list, nothing privileged happens |
| QrStatsBot.ParseDays | main/management/commands/run_telegram_bot.py:128-130 | the day argument; stated by ParseDaysRoundTrip and ParseDaysDefault |
| QrStatsBot.ParseDaysRoundTrip | main/management/commands/run_telegram_bot.py:128-130 | a digit argument is read as its integer value, and later arguments are ignored |
| QrStatsBot.ParseDaysDefault | main/management/commands/run_telegram_bot.py:128-130 | with no argument, or a first argument that is not all digits, the window is 30 days |
| QrStatsBot.OversizedDayArgumentFails | main/management/commands/run_telegram_bot.py:171-179 | on any representable day, a typed day count longer than the representable calendar makes the window start overflow, so the error notice replaces the statistics |
| QrStatsBot.DefaultWindowsFit | main/management/commands/run_telegram_bot.py:171-179 | the default 30-day window and every dashboard window have a representable start once today is past day 3650 |
| QrStatsBot.StartText | main/management/commands/run_telegram_bot.py:107-122 | the `/start` text; stated by StartTextLayout |
| QrStatsBot.StartTextLayout | main/management/commands/run_telegram_bot.py:107-122 | an admin's `/start` text is the ordinary text followed by the admin section; others get only the ordinary text |
| QrStatsBot.CmdStart | main/management/commands/run_telegram_bot.py:107-122 | `/start`; stated by CommandsGated |
| QrStatsBot.CmdHelp | main/management/commands/run_telegram_bot.py:124-125 | `/help`; stated by CommandsGated |
| QrStatsBot.CmdStats | main/management/commands/run_telegram_bot.py:127-132 | `/stats`; stated by CommandsGated |
| QrStatsBot.CmdAllStats | main/management/commands/run_telegram_bot.py:134-139 | `/allstats`; stated by CommandsGated |
| QrStatsBot.CmdCompare | main/management/commands/run_telegram_bot.py:141-143 | `/compare`; stated by CommandsGated |
| QrStatsBot.CmdDashboard | main/management/commands/run_telegram_bot.py:145-151 | `/dashboard`; stated by CommandsGated and, from a callback, by CbBack |
| QrStatsBot.CommandsGated | main/management/commands/run_telegram_bot.py:124-151 | `/stats` is ungated and non-admin in scope; `/help` is `/start`; `/allstats`, `/compare` and `/dashboard` run for admins and only refuse for everyone else |
| QrStatsBot.Dispatch | main/management/commands/run_telegram_bot.py:155-167 | `cb_handler` over a range table; its cases are stated by CbEmptyData, CbRange, CbRangeWithoutArgument, CbCompare, CbUnknownAction, CbUngatedExceptBack and CbBack |
| QrStatsBot.BackFromCallback | main/management/commands/run_telegram_bot.py:145-151 | `cmd_dashboard` run from a callback; stated by CbBack |
| QrStatsBot.CbHandler | main/management/commands/run_telegram_bot.py:155-167 | `cb_handler` with `Range.to_days`; stated by the CbEmptyData … CbBack lemmas |
| QrStatsBot.CbEmptyData | main/management/commands/run_telegram_bot.py:157-158 | a missing or empty callback does nothing, not even `query.answer()` |
| QrStatsBot.CbRange | main/management/commands/run_telegram_bot.py:159-162 | "range:v" sends admin-scope stats for `to_days(v)` by editing, then answers; extra ":" fields are ignored |
| QrStatsBot.CbRangeWithoutArgument | main/management/commands/run_telegram_bot.py:159-161 | "range" with no argument fails at `arg[0]`, and the error handler sends its notice |
| QrStatsBot.CbCompare | main/management/commands/run_telegram_bot.py:163-164 | "compare", with or without a suffix, sends the comparison by editing, then answers |
| QrStatsBot.CbUnknownAction | main/management/commands/run_telegram_bot.py:159-167 | any other action only answers the query |
| QrStatsBot.CbUngatedExceptBack | main/management/commands/run_telegram_bot.py:155-167 | apart from "back", the callback outcome does not depend on who sent it: there is no admin check |
| QrStatsBot.CbBack | main/management/commands/run_telegram_bot.py:144-167 | "back" goes through the gated dashboard: others get the refusal and then the answer; for an admin the dashboard's `update.message.reply_text` fails in a callback, so the error notice is sent and the query is never answered |
| QrStatsBot.DashboardKeyboard | main/management/commands/run_telegram_bot.py:214-228 | six one-button rows: "range:today", "range:yesterday", "range:7d", "range:30d", "range:all", then "compare:" |
| QrStatsBot.DashboardRoundTrip | main/management/commands/run_telegram_bot.py:155-164 | pressing the i-th range button shows stats for 0, 1, 7, 30 or 3650 days, and the last button shows the comparison |
| QrStatsBot.BuildStats | main/management/commands/run_telegram_bot.py:171-190 | the error notice exactly when the window start cannot be computed (more than 999999999 days, or a start before 0001-01-01); otherwise the lines the loop appends: the title, the total and, in admin scope, the per-location lines |
| QrStatsBot.BuildCompare | main/management/commands/run_telegram_bot.py:192-212 | the sections the two nested loops append are the specified comparison layout |
| QrStatsBot.BuildCountLines | main/management/commands/run_telegram_bot.py:204-210 | the inner loop appends one count line per location for the window |
| ApiTokenBot.RangeList | main/management/commands/create_api_token.py:46-48 | `Range.list()` is ["today","yesterday","7d","30d","all"] in declaration order |
| ApiTokenBot.RangeToDays | main/management/commands/create_api_token.py:205-214 | the same table, "all" giving 3650, and every unknown label giving 30 |
| ApiTokenBot.RangeToDaysAgrees | main/management/commands/create_api_token.py:205-214 | `_range_to_days` agrees with the other bot's `Range.to_days` on every label |
| ApiTokenBot.ApiStartText | main/management/commands/create_api_token.py:98-113 | this bot's `/start` text; stated by ApiStartTextLayout |
| ApiTokenBot.ApiStartTextLayout | main/management/commands/create_api_token.py:98-113 | an admin's `/start` text is the ordinary text followed by the admin section; non-admins get only the ordinary text |
| ApiTokenBot.GatedCommandsDeny | main/management/commands/create_api_token.py:55-66 | with no user, no username, or a username off the list, `/allstats`, `/compare` and `/dashboard` only send the refusal |
| ApiTokenBot.CommandsForAdmin | main/management/commands/create_api_token.py:115-138 | admins get admin-scope stats and the dashboard; `/stats` is ungated; `/help` is `/start` |
| ApiTokenBot.HandleCommand | main/management/commands/create_api_token.py:98-138 | the command handlers; stated by GatedCommandsDeny and CommandsForAdmin |
| ApiTokenBot.CbHandler | main/management/commands/create_api_token.py:142-155 | `cb_handler` with `_range_to_days`; stated by CbHandlerAgrees and CbNoGateForRangeOrCompare |
| ApiTokenBot.CbHandlerAgrees | main/management/commands/create_api_token.py:142-153 | this bot's callback handler behaves exactly like the other bot's on every input |
| ApiTokenBot.CbNoGateForRangeOrCompare | main/management/commands/create_api_token.py:142-153 | "range:v" and "compare:" act for anyone with no admin check; only "back" refuses non-admins, through the gated dashboard |
| ApiTokenBot.BuildDashboardKb | main/management/commands/create_api_token.py:216-228 | the row-appending loop builds the six-row dashboard keyboard |
| ApiTokenBot.KeyboardRoundTrip | main/management/commands/create_api_token.py:146-150 | every button's data splits on ":" into exactly two fields: "range" and a label whose `_range_to_days` is 0, 1, 7, 30 or 3650, or "compare" and "" |
| ApiTokenBot.BuildStats | main/management/commands/create_api_token.py:157-181 | the error notice exactly when the window start cannot be computed; otherwise the parts the loop appends: the title, the total and, in admin scope only, the per-location lines with their shares |
| LocationAdmin.UserLabels | main/admin.py:66-68 | one "username (phone)" label per user, in order |
| LocationAdmin.GetUser | main/admin.py:62-74 | exactly "-" with no users; the label of a lone user; two users' labels joined by ", "; with more than two, the first two labels joined by ", " then " +k more" with k = count - 2 |
| LocationAdmin.GetUserMoreIff | main/admin.py:71-72 | the display ends in " more" exactly when there are more than two users |
| LocationAdmin.QrVisitUrl | main/admin.py:125-128 | the QR target URL; its shape and injectivity are stated by QrVisitUrlShape |
| LocationAdmin.QrCodePreview | main/admin.py:111-121 | the preview field; its two cases are stated by QrCodePreviewCases |
| LocationAdmin.QrVisitUrlShape | main/admin.py:127-128 | the URL is the root with every trailing "/" stripped, then "/visit/<id>/"; different locations get different URLs |
| LocationAdmin.QrCodePreviewCases | main/admin.py:111-121 | an unsaved object gets "Save first to see QR code"; a saved one shows the reversed QR URL as both the image source and the download link |
| LocationAdmin.HourlyBelow | main/admin.py:164-170 | the hourly distribution: ascending hours, each with a positive count equal to the number of that hour's scans today |
| LocationAdmin.HourlyBelowComplete | main/admin.py:164-170 | every hour that has a scan today appears in the distribution |
| LocationAdmin.HourlyBelowSum | main/admin.py:164-170 | the hourly counts add up to the scans of today below the hour bound |
| LocationAdmin.StatisticsWindows | main/admin.py:149-161 | last_week <= last_month <= total, and today + yesterday <= last_week |
| LocationAdmin.HourlySumsToToday | main/admin.py:155-170 | the distribution is in ascending hour order and its counts add up to today_count |
| LocationAdmin.StatisticsDetail | main/admin.py:145-190 | the numbers of the statistics page; their ordering and the hourly sum are stated by StatisticsWindows and HourlySumsToToday |
| LocationAdmin.HasPermission | main/admin.py:198-228 | the add/change permission of each admin; that the ledgers stay read-only is stated by LedgersReadOnly |
| LocationAdmin.LedgersReadOnly | main/admin.py:198-228 | scans and phone clicks can never be added or changed through the admin (nor scans added through the location inline, main/admin.py:33-34), whoever asks; viewing is left to Django |
| FixSlugs.SuffixedInjective | main/management/commands/fix_furniture_slugs.py:33 | `base-c` differs from base, and different counters give different slugs |
| FixSlugs.SuffixesUpToSize | main/management/commands/fix_furniture_slugs.py:31-34 | there are n distinct slugs `base-1` … `base-n`, which is why the counter loop ends |
| FixSlugs.Deduplicate | main/management/commands/fix_furniture_slugs.py:28-34 | the result is held by no other item; it is the base when no other item holds the base, and otherwise `base-c` for the smallest such free c >= 1 |
| FixSlugs.FallbackSlug | main/management/commands/fix_furniture_slugs.py:19-25 | an empty slug becomes slugify(name) when the name and its slugify are non-empty, and `item-<pk>` otherwise; never empty |
| FixSlugs.ChangedBelowPrefix | main/management/commands/fix_furniture_slugs.py:36-39 | the count of rewritten slugs among the first k items depends only on those items |
| FixSlugs.ChangedBelow | main/management/commands/fix_furniture_slugs.py:36-39 | the number of rewritten slugs; stated by ChangedBelowPrefix and Handle |
| FixSlugs.FixItem | main/management/commands/fix_furniture_slugs.py:16-36 | one iteration writes only the slug; the new slug is non-empty and held by no other item; it is counted iff it changed; a slug already non-empty and unique is kept; an empty one restarts from the fallback |
| FixSlugs.ProgressStep | main/management/commands/fix_furniture_slugs.py:15-39 | one iteration keeps the loop invariant: visited slugs non-empty and pairwise distinct, only slugs written, fixed_count = the number changed |
| FixSlugs.Handle | main/management/commands/fix_furniture_slugs.py:9-43 | afterwards every slug is non-empty and all are pairwise distinct; only slugs change; an item whose slug was non-empty and unique at its turn keeps it; fixed_count is the number of rewritten slugs |
| KitchenDescriptions.ParseEntriesLastWins | main/management/commands/update_kitchen_descriptions.py:41-60 | the parsed ids are distinct, and each id maps to the description of the last chunk that names it |
| KitchenDescriptions.ChunkEntry | main/management/commands/update_kitchen_descriptions.py:43-60 | one "➔" chunk; stated by ChunkSkipped, ChunkTwoLines and ChunkThreeLines |
| KitchenDescriptions.ParseEntries | main/management/commands/update_kitchen_descriptions.py:42-60 | the chunks in order; stated by ParseEntriesLastWins |
| KitchenDescriptions.ParseKitchenFile | main/management/commands/update_kitchen_descriptions.py:32-74 | the parsed file; stated by ParseFailureIsEmpty and ParseKitchenFileLoop |
| KitchenDescriptions.ChunkSkipped | main/management/commands/update_kitchen_descriptions.py:44-49 | a whitespace-only chunk, or one of fewer than two lines, contributes nothing |
| KitchenDescriptions.ChunkTwoLines | main/management/commands/update_kitchen_descriptions.py:48-60 | a two-line chunk gives (stripped first line, stripped second line), unless the second line contains "Цена по запросу", in which case it gives nothing |
| KitchenDescriptions.ChunkThreeLines | main/management/commands/update_kitchen_descriptions.py:54-56 | with three lines the description is still the stripped second line, even when it holds "Цена по запросу" |
| KitchenDescriptions.ParseFailureIsEmpty | main/management/commands/update_kitchen_descriptions.py:69-74 | a missing or unreadable file gives an empty mapping |
| KitchenDescriptions.ParseKitchenFileLoop | main/management/commands/update_kitchen_descriptions.py:32-74 | the loop over the "➔" chunks builds exactly the specified mapping |
| KitchenDescriptions.Describe | main/management/commands/update_kitchen_descriptions.py:87-92 | specification of one id's update; it keeps the number of rows, and its effect is stated by DescribeCount and DescribeMatching |
| KitchenDescriptions.DescribeAll | main/management/commands/update_kitchen_descriptions.py:85-92 | specification of the whole pass; it keeps the number of rows, and its effect is stated by DescribeAllResult |
| KitchenDescriptions.CountMatches | main/management/commands/update_kitchen_descriptions.py:87 | the number of kitchen items named the id, at most one per row |
| KitchenDescriptions.Unmatched | main/management/commands/update_kitchen_descriptions.py:95-96 | the not-found ids, at most one per mapping entry; which ids they are is stated by UnmatchedIff |
| KitchenDescriptions.DescribeAllResult | main/management/commands/update_kitchen_descriptions.py:80-92 | a kitchen item whose name is a mapping key gets that key's description and is saved once, the hook filling only an empty slug; other rows are untouched |
| KitchenDescriptions.DescribeKeepsMatches | main/management/commands/update_kitchen_descriptions.py:87-92 | writing descriptions does not change which items later ids match |
| KitchenDescriptions.DescribeCount | main/management/commands/update_kitchen_descriptions.py:90-92 | one id's update does not change any id's match count |
| KitchenDescriptions.UnmatchedIff | main/management/commands/update_kitchen_descriptions.py:89-96 | an id is reported not found iff it is a mapping key that no kitchen item is named |
| KitchenDescriptions.DescribeMatching | main/management/commands/update_kitchen_descriptions.py:87-93 | the loop over matching items writes the description to each and counts items, not ids |
| KitchenDescriptions.UpdateDescriptions | main/management/commands/update_kitchen_descriptions.py:76-109 | the table becomes the described table; updated_count is the number of matched items; not_found_ids lists the unmatched ids in mapping order |
| KitchenDescriptions.Handle | main/management/commands/update_kitchen_descriptions.py:12-30 | no kitchen category, several, or an empty mapping each stop the command with the table unchanged; otherwise the update is applied |
| KitchenNames.MatchCount | main/management/commands/update_kitchen_names.py:113-117 | the number of items the filter in force selects, at most one per row |
| KitchenNames.MatchCountZeroIff | main/management/commands/update_kitchen_names.py:113-119 | the filter in force matches nothing iff no item satisfies it |
| KitchenNames.Picks | main/management/commands/update_kitchen_names.py:113-117 | the filter in force; stated by MatchCount and MatchCountZeroIff |
| KitchenNames.Renamed | main/management/commands/update_kitchen_names.py:121-126 | the renamed and re-saved row; stated by RenameAllOnlyKitchen and RealRunMatchesOnce |
| KitchenNames.RenameSelected | main/management/commands/update_kitchen_names.py:120-126 | specification of one entry's renaming; it keeps the number of rows, and RenameMatching is proved against it |
| KitchenNames.RenameAll | main/management/commands/update_kitchen_names.py:111-133 | specification of the pass; it keeps the number of rows, and its effect is stated by RenameAllOnlyKitchen, DryRunWritesNothing and RealRunMatchesOnce |
| KitchenNames.RenameAllOnlyKitchen | main/management/commands/update_kitchen_names.py:105-126 | only name and slug of kitchen items ever change; items outside the kitchen are untouched |
| KitchenNames.NotFoundAreMappingIds | main/management/commands/update_kitchen_names.py:132-133 | every not-found id is a key of the mapping |
| KitchenNames.DryRunWritesNothing | main/management/commands/update_kitchen_names.py:111-133 | a dry run leaves the table as it is, yet counts every match, and reports as not found exactly the ids nothing matches |
| KitchenNames.OverlappingEntriesInMapping | main/management/commands/update_kitchen_names.py:51-76 | "14" comes before "4" in the fixed mapping |
| KitchenNames.DryRunMatchesTwice | main/management/commands/update_kitchen_names.py:111-131 | on a kitchen holding only "14", a dry run counts it for both "14" and "4" |
| KitchenNames.RealRunMatchesOnce | main/management/commands/update_kitchen_names.py:111-133 | in a real run the renamed "14" no longer contains "4": one update, and "4" is not found, so dry and real counts differ |
| KitchenNames.RenameMatching | main/management/commands/update_kitchen_names.py:119-131 | the loop over matches renames each (a real run) or writes nothing (a dry run), and counts the matches either way |
| KitchenNames.UpdateFurnitureNames | main/management/commands/update_kitchen_names.py:101-133 | the pass over the mapping yields the specified table, updated_count and not-found set |
| KitchenNames.Handle | main/management/commands/update_kitchen_names.py:19-42 | no kitchen category, or several, stops with the table unchanged; otherwise the fixed mapping is applied |
| FurnitureFromJson.NewSlug | main/management/commands/update_furniture_from_json.py:83-89 | the slug is slugify(new_name), or `item-<id>` when that is empty; never empty |
| FurnitureFromJson.EntryStep | main/management/commands/update_furniture_from_json.py:62-102 | skipped iff old_name or new_name is empty; missing iff no item of the category has old_name; ambiguous when two do; otherwise the unique item gets new_name, the description and the new slug |
| FurnitureFromJson.AfterStep | main/management/commands/update_furniture_from_json.py:61-102 | specification of one item entry, built on EntryStep; it keeps the number of rows |
| FurnitureFromJson.ApplyItems | main/management/commands/update_furniture_from_json.py:61-102 | specification of one category's item loop; it keeps the number of rows, and its effect is stated by ApplyItemsEffect |
| FurnitureFromJson.ApplyCategories | main/management/commands/update_furniture_from_json.py:42-102 | specification of the pass; it keeps the number of rows, and its counters are stated by ApplyCategoriesCounts |
| FurnitureFromJson.ApplyItemsEffect | main/management/commands/update_furniture_from_json.py:61-102 | within a category the category counter is unchanged, updated + not_found grows by at most the number of listed items, and a changed row keeps its key, belongs to the category and has a non-empty slug |
| FurnitureFromJson.ApplyCategoriesCounts | main/management/commands/update_furniture_from_json.py:42-97 | categories_processed counts every top-level key, found or not; updated + not_found is at most the number of items listed under found categories |
| FurnitureFromJson.ApplyItemsBoundEmpty | main/management/commands/update_furniture_from_json.py:61-97 | the counter bound per category, without reference to rows |
| FurnitureFromJson.ProcessItems | main/management/commands/update_furniture_from_json.py:61-102 | the item loop gives exactly the specified table, counters and crash flag |
| FurnitureFromJson.ProcessEntry | main/management/commands/update_furniture_from_json.py:62-102 | one loop iteration is exactly one specified step |
| FurnitureFromJson.ApplyItemsStopped | main/management/commands/update_furniture_from_json.py:76-96 | after an uncaught duplicate-name error, later items change nothing |
| FurnitureFromJson.Handle | main/management/commands/update_furniture_from_json.py:21-112 | a missing or malformed file changes nothing; otherwise the table and counters are the specified pass, and a duplicate name ends the run with earlier writes kept |
| FurnitureFromJson.ApplyCategoriesStopped | main/management/commands/update_furniture_from_json.py:42-102 | after a crash, later categories change nothing |
| FurnitureData.GetOrCreate | main/management/commands/update_furniture_data.py:33-41 | finds the unique category with the name, or creates one with a fresh key, slug slugify(name), description "Collection of <lowercased name>", order 0 and active |
| FurnitureData.MatchesCi | main/management/commands/update_furniture_data.py:63-71 | the `name__icontains` filter; stated by DataStepEffect |
| FurnitureData.Rewritten | main/management/commands/update_furniture_data.py:75-79 | a matched row after its save; stated by DataStepEffect and DataStepSharedSlug |
| FurnitureData.DataStep | main/management/commands/update_furniture_data.py:49-90 | specification of one entry; it keeps the number of rows, and its effect is stated by DataStepEffect |
| FurnitureData.DataStepEffect | main/management/commands/update_furniture_data.py:50-90 | entries lacking oldName or newName change nothing; otherwise the category's items whose lowercased name contains oldName — or, when none does, newName — get the new name, description and slugify(newName), then are saved; other rows are untouched |
| FurnitureData.DataStepSharedSlug | main/management/commands/update_furniture_data.py:73-79 | all items rewritten by one entry share one name and one description, and, when slugify(newName) is non-empty, one slug; an empty slugify result is replaced row by row by the save hook |
| FurnitureData.DataStepNoMatch | main/management/commands/update_furniture_data.py:85-90 | when neither name matches, nothing changes |
| FurnitureData.DataSteps | main/management/commands/update_furniture_data.py:49-90 | specification of one category's entries; it keeps the number of rows, and DataStepsKeepRows states what it preserves |
| FurnitureData.CategoryStep | main/management/commands/update_furniture_data.py:29-90 | specification of one category: get-or-create, then its entries; it keeps the number of rows |
| FurnitureData.ApplyData | main/management/commands/update_furniture_data.py:29-90 | specification of the pass; it keeps the number of rows, and stops at the first failure (ApplyDataStopped) |
| FurnitureData.DataStepsKeepRows | main/management/commands/update_furniture_data.py:63-79 | items keep their key and category, and items of other categories are untouched |
| FurnitureData.RewriteMatching | main/management/commands/update_furniture_data.py:75-79 | the loop rewrites exactly the matching items, with the same name, description and slug |
| FurnitureData.ProcessEntries | main/management/commands/update_furniture_data.py:49-90 | the entry loop gives exactly the specified table |
| FurnitureData.ProcessCategory | main/management/commands/update_furniture_data.py:29-90 | one category's get-or-create and entry loop give exactly the specified tables and failure flag |
| FurnitureData.AppendFreshCategory | main/management/commands/update_furniture_data.py:33-41 | a created category with a fresh key keeps category keys distinct |
| FurnitureData.ApplyDataStopped | main/management/commands/update_furniture_data.py:102-105 | after a failure, later categories change nothing, and earlier updates stay since there is no transaction |
| FurnitureData.Handle | main/management/commands/update_furniture_data.py:13-105 | a missing file or malformed JSON changes nothing; otherwise the tables are the specified pass, with earlier writes kept on failure |
| FurnitureFromImages.Images | main/management/commands/create_furniture_from_images.py:55-58 | the filtered listing, never longer than the listing; which names it keeps is stated by ImagesIff |
| FurnitureFromImages.ImagesIff | main/management/commands/create_furniture_from_images.py:55-58 | a name is an image iff it is listed and its lowercased form ends in .jpg, .jpeg, .png or .gif |
| FurnitureFromImages.ImagesAll | main/management/commands/create_furniture_from_images.py:55-58 | the filter keeps the whole listing iff every name is an image |
| FurnitureFromImages.IsImage | main/management/commands/create_furniture_from_images.py:55-58 | the extension filter; stated by ImagesIff |
| FurnitureFromImages.FilterImages | main/management/commands/create_furniture_from_images.py:55-58 | the append loop builds exactly the filtered list, in listing order |
| FurnitureFromImages.RFind | main/management/commands/create_furniture_from_images.py:94 | the last position of the character, or -1 when it does not occur |
| FurnitureFromImages.ExtIsSuffix | main/management/commands/create_furniture_from_images.py:94 | `splitext`'s ext is a suffix of the name, empty or a dot followed by no further dot |
| FurnitureFromImages.ImageExt | main/management/commands/create_furniture_from_images.py:57-94 | for a name ending in an image suffix, ext is that suffix in the name's original case |
| FurnitureFromImages.UpperCaseExtensionKept | main/management/commands/create_furniture_from_images.py:57-94 | "IMG.JPG" passes the filter and keeps ext ".JPG" |
| FurnitureFromImages.HiddenImageHasNoExtension | main/management/commands/create_furniture_from_images.py:57-94 | ".png" passes the filter yet has an empty ext |
| FurnitureFromImages.Ext | main/management/commands/create_furniture_from_images.py:94 | `splitext(...)[1]`; stated by ExtIsSuffix, ImageExt and HiddenImageHasNoExtension |
| FurnitureFromImages.DestFilename | main/management/commands/create_furniture_from_images.py:98-103 | the destination file name; stated by DestFilenameShape |
| FurnitureFromImages.ItemNameInjective | main/management/commands/create_furniture_from_images.py:73-74 | different positions give different names and descriptions |
| FurnitureFromImages.DestFilenameShape | main/management/commands/create_furniture_from_images.py:98-103 | the destination is a slug prefix followed by "_<i><ext>": the whole slug when it fits in 80 characters, else its first 30 characters |
| FurnitureFromImages.Imported | main/management/commands/create_furniture_from_images.py:71-125 | specification of the run: one new row per image after the existing rows; each row is stated by ImportedRow |
| FurnitureFromImages.NewRows | main/management/commands/create_furniture_from_images.py:71-125 | the created rows, one per image |
| FurnitureFromImages.ImportedRow | main/management/commands/create_furniture_from_images.py:70-125 | the i-th image's row is named "<prefix>_<i>" and described "Description for <prefix>_<i>" in the category; its slug is slugify(name) + "_" + the run's timestamp; its key is fresh; main_image is set only when the copy succeeds |
| FurnitureFromImages.ImportedKeysDistinct | main/management/commands/create_furniture_from_images.py:79-88 | the created rows keep primary keys distinct |
| FurnitureFromImages.CreateItem | main/management/commands/create_furniture_from_images.py:79-115 | one iteration appends the created row, with main_image set if the copy succeeded |
| FurnitureFromImages.ImportAll | main/management/commands/create_furniture_from_images.py:69-125 | the enumerate loop gives exactly the specified table |
| FurnitureFromImages.Handle | main/management/commands/create_furniture_from_images.py:40-131 | a missing directory, a missing or ambiguous category, or no images return before anything is created; otherwise one item per image, reporting the number of images regardless of copy failures |
| PhoneTracking.FirstCookieAbsentIff | static/js/phone-tracking.js:3-14 | the result is null iff no trimmed segment starts with name + "=" |
| PhoneTracking.FirstCookieWins | static/js/phone-tracking.js:6-11 | the first matching segment decides, and what follows name + "=" (further "=" included) is decoded |
| PhoneTracking.LongerNameSkipped | static/js/phone-tracking.js:8 | a cookie whose name merely extends the queried one does not match |
| PhoneTracking.SingleCookie | static/js/phone-tracking.js:2-14 | a lone cookie "name=v" gives the decoding of v |
| PhoneTracking.FirstCookie | static/js/phone-tracking.js:6-11 | the first matching segment; stated by FirstCookieAbsentIff and FirstCookieWins |
| PhoneTracking.CookieOf | static/js/phone-tracking.js:2-15 | `getCookie`; stated by SingleCookie, LongerNameSkipped and GetCookie |
| PhoneTracking.GetCookie | static/js/phone-tracking.js:2-15 | the for loop with its break returns exactly the specified lookup, null for an empty cookie string |
| PhoneTracking.HandlePhoneClick | static/js/phone-tracking.js:17-42 | a click is posted, with the visit id and the token, only when visitId is non-empty; navigation to "tel:"+phone happens whenever the token decodes |
| SeeIt.MaxZ | static/js/see_it.js:134-139 | maxZ is non-negative and at least every piece's z-index, a non-numeric one counting as 0 |
| SeeIt.SameMarksConsistent | static/js/see_it.js:127-160 | changing anything except handles and selection marks keeps the selection invariant |
| SeeIt.SelectedConsistent | static/js/see_it.js:132-144 | exactly one piece marked and made active restores the invariant |
| SeeIt.DeselectedConsistent | static/js/see_it.js:150-160 | unmarking one element, and clearing the active item only if it is that element, keeps the invariant |
| SeeIt.Room.constructor | static/js/see_it.js:88 | an empty room with no active piece |
| SeeIt.Room.TopZ | static/js/see_it.js:134-139 | the forEach loop computes MaxZ |
| SeeIt.Room.Deselect | static/js/see_it.js:150-160 | removes the element's mark, clears the active item only if it is that element, and changes nothing else |
| SeeIt.Room.Select | static/js/see_it.js:127-148 | a different active item is deselected; the element becomes marked and active; its z becomes 1 + the old maximum, strictly above every other piece; nothing else changes |
| SeeIt.Room.BringToFront | static/js/see_it.js:131-144 | marks the element, puts it above all others and makes it active |
| SeeIt.Room.Add | static/js/see_it.js:91-123 | without the template nothing changes; otherwise a new piece with a fresh handle at 10px/10px is appended and selected, so it is active and topmost |
| SeeIt.Room.Clear | static/js/see_it.js:38-46 | every piece is removed and no piece is active |
| SeeIt.Room.ItemMouseDown | static/js/see_it.js:162-174 | the piece becomes selected and active with z-index 1 + the old maximum, strictly above every other piece; its cursor is "grabbing" and its other attributes are kept; every other piece keeps position, z-index and cursor and is unselected; no handle is issued; propagation stops |
| SeeIt.Room.RoomMouseDown | static/js/see_it.js:177-184 | on the bare room no piece remains active or selected, and every piece keeps all its other attributes; a mousedown bubbling from a child changes nothing |
| SeeIt.Room.MouseDown | static/js/see_it.js:162-184 | on a piece, the full effect of ItemMouseDown and no propagation, so the room never undoes the selection; on the bare room, the deselection of RoomMouseDown; on another child nothing changes |
| SeeIt.SelectComposes | static/js/see_it.js:127-141 | deselect-then-mark leaves every other piece as it was and unmarked |
| SeeIt.MaxZAttained | static/js/see_it.js:134-139 | maxZ is 0 or some piece's z-index |
| SeeIt.MaxZSameValues | static/js/see_it.js:134-139 | maxZ depends only on the pieces' z-indices |
| SeeIt.AtMostOneSelected | static/js/see_it.js:88-160 | at most one piece is marked selected, and a marked one is the active item |

## Left out

- Telegram and HTTP transport are left out: polling, `reply_text`/`edit_message_text` and the logging error handlers. Replies are modelled as a list of `Action` values and stats lines as datatypes.
- Markdown layout and the `:.1f` rounding of shares are left out: a share is an exact `real`.
- `timezone.now()`, date conversion and SQL hour extraction are left out: days are integers, "today" is a parameter, and each scan carries its hour.
- File and directory I/O are left out: `open`/`json.load`, `os.path.exists`, `os.listdir`, `os.makedirs` and `shutil.copy2`. The file contents or the parse outcome are parameters. The copy is a parameter that may fail.
- `slugify`, `decodeURIComponent`, the FurnitureItem save-time slug hook and `reverse()` are uninterpreted parameters. Their definitions are not among the repository files modelled here.
- Catalog.Saved: the save hook is taken to fill only an empty slug and to leave a set slug alone. Every `item.save()` of KitchenNames, KitchenDescriptions and FurnitureData goes through it. FixSlugs, FurnitureFromJson and FurnitureFromImages only ever save non-empty slugs, so the hook would not change their rows.
- FurnitureData.GetOrCreate: no save hook of FurnitureCategory is applied; a created category's slug is slugify(name), even when that is empty.
- The FurnitureItem and FurnitureCategory models, `Location.user` and PhoneClick are not part of this model's source files. Their columns are taken from the fields the commands and the admin write; the visit-id attribution flow behind them is not modelled.
- The endpoint mismatch is not modelled: phone-tracking.js:25 posts to "/record-phone-click/" while the route is "api/record-phone-click/". The `fetch` and its response are left out; `Click.post` records only the request that would be sent.
- Unique-constraint errors on `slug` at save time are not modelled. The model states which slugs result.
- `transaction.atomic` is left out. The kitchen commands never raise inside the atomic block in this model, and a crash in the other commands keeps earlier writes.
- DOM elements are modelled as numeric handles. `parseInt(style.zIndex)` is an `Option<int>`; `NaN || 0` is `GetOr(0)`.
- The FileReader upload handler and the catalogue fetch in see_it.js are left out. So is the template cloning: `Add` takes whether the template exists as a parameter.
- KitchenNames.Handle: omits the "No name mapping available" branch (update_kitchen_names.py:34-36), because the mapping is a fixed non-empty constant and that branch can never run.
- Strings.Lower: lowers only ASCII and the basic Cyrillic letters; other Unicode case mappings are left out.
- Strings.DigitChar: only ASCII digits count as digits. Python's `isdigit()` also accepts other Unicode digits.
- QrStatsBot.ParseDays: a first argument of non-ASCII characters that `isdigit()` accepts is read here as not digits, giving 30 days. The same holds for QrStatsBot.CmdStats, QrStatsBot.CmdAllStats and ApiTokenBot.HandleCommand. In Python, `int()` then either reads the digits (decimal digits of other scripts) or raises ValueError (digits such as "²"), and the error handler sends its notice. Neither outcome is modelled.
- QrStatsBot.ParseDaysRoundTrip: covers numbers rendered in ASCII digits only.
- QrStatsBot.Dispatch: its action lists treat `SendStats` as completing. When BuildStats reports `StatsFailed`, the source's `query.answer()` after it does not run. For the dashboard windows this needs a clock on or before 0010-12-29 (day 3650).
- QrStatsBot.BuildCompare: assumes today is at least day 31 (0001-01-31). On an earlier day, `today - timedelta(days=30)` would raise OverflowError. The same holds for LocationAdmin.StatisticsDetail.
- JSON values of other types are left out. FurnitureFromJson.Entry and FurnitureFromJson.Source take every item field as a string and every category value as a list of objects. Python would behave differently on a null or numeric field, a non-object top level, or a non-list category value, and the model says nothing about any of these.
- A Telegram user's username is an `Option<string>`, because Telegram users may lack one. A user without a username is never in ADMIN_USERNAMES.
- KitchenNames.RenameSelected: sets the slug to "" before the save hook, where the source assigns None.
- Image and QR encoding (PIL, `qrcode.make`, BytesIO) are left out; only the QR URL and the download filename are modelled.
