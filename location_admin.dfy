/**
  The location pages of the Django admin (main/admin.py): the "Users" column, the QR visit
  URL, the QR preview field, the numbers of the statistics page, and the permissions that keep
  the scan and phone-click ledgers read-only.
 */
module LocationAdmin {
  import opened Maybe
  import opened Strings
  import opened ScanStats

  // ---------------------------------------------------------------------------
  // The "Users" column
  // ---------------------------------------------------------------------------

  /** `f"{user.username} ({user.phone_number})"` */
  function UserLabel(u: Account): string {
    u.username + " (" + u.phoneNumber + ")"
  }

  function UserLabels(users: seq<Account>): (labels: seq<string>)
    ensures |labels| == |users|
    ensures forall i :: 0 <= i < |users| ==> labels[i] == UserLabel(users[i])
  {
    if |users| == 0 then [] else [UserLabel(users[0])] + UserLabels(users[1..])
  }

  /**
    `get_user`: "-" without users; otherwise the labels of the first two users joined by ", ",
    then " +k more" when k = count - 2 further users exist.
   */
  function GetUser(users: seq<Account>): (display: string)
    ensures |users| == 0 ==> display == "-"
    ensures |users| == 1 ==> display == UserLabel(users[0])
    ensures |users| >= 2 ==> StartsWith(display, UserLabel(users[0]) + ", " + UserLabel(users[1]))
    ensures |users| == 2 ==> display == UserLabel(users[0]) + ", " + UserLabel(users[1])
    ensures |users| > 2 ==> display == UserLabel(users[0]) + ", " + UserLabel(users[1]) + " +" + NatToString(|users| - 2) + " more"
    ensures |users| > 2 ==> EndsWith(display, " +" + NatToString(|users| - 2) + " more")
    ensures 1 <= |users| <= 2 ==> display[|display| - 1] == ')'
  {
    if |users| > 0 then
      var shown := if |users| < 2 then users else users[..2];
      var display := Join(UserLabels(shown), ", ");
      assert |users| >= 2 ==> UserLabels(shown) == [UserLabel(users[0]), UserLabel(users[1])];
      JoinTwo(UserLabel(users[0]), if |users| >= 2 then UserLabel(users[1]) else "", ", ");
      if |users| > 2 then display + " +" + NatToString(|users| - 2) + " more" else display
    else
      "-"
  }

  /** The " more" suffix appears exactly when there are more than two users. */
  lemma GetUserMoreIff(users: seq<Account>)
    ensures EndsWith(GetUser(users), " more") <==> |users| > 2
  {
    var d := GetUser(users);
    if |users| > 2 {
      var tail := " +" + NatToString(|users| - 2) + " more";
      assert d[|d| - |tail|..] == tail;
      assert d[|d| - 5..] == tail[|tail| - 5..];
    } else if 1 <= |users| {
      assert d[|d| - 1] == ')';
      if |d| >= 5 {
        assert d[|d| - 5..][4] == d[|d| - 1];
      }
    } else {
      assert d == "-";
    }
  }

  // ---------------------------------------------------------------------------
  // The QR code
  // ---------------------------------------------------------------------------

  /** `generate_qrcode`'s target: the site root without trailing "/", then "/visit/<id>/". */
  function QrVisitUrl(root: string, id: nat): string {
    RStripChar(root, '/') + "/visit/" + NatToString(id) + "/"
  }

  /**
    The URL is the root with every trailing "/" removed, then "/visit/", the decimal id and a
    final "/"; different locations get different URLs.
   */
  lemma QrVisitUrlShape(root: string, a: nat, b: nat)
    ensures var base := RStripChar(root, '/');
      && StartsWith(QrVisitUrl(root, a), base)
      && (|base| == 0 || base[|base| - 1] != '/')
      && (forall i :: |base| <= i < |root| ==> root[i] == '/')
      && QrVisitUrl(root, a)[|base|..] == "/visit/" + NatToString(a) + "/"
    ensures QrVisitUrl(root, a) == QrVisitUrl(root, b) ==> a == b
  {
    var base := RStripChar(root, '/');
    var ua := QrVisitUrl(root, a);
    assert ua == base + ("/visit/" + NatToString(a) + "/");
    if QrVisitUrl(root, a) == QrVisitUrl(root, b) {
      var ub := QrVisitUrl(root, b);
      assert ub == base + ("/visit/" + NatToString(b) + "/");
      CancelPrefix(base, "/visit/" + NatToString(a) + "/", "/visit/" + NatToString(b) + "/");
      assert "/visit/" + NatToString(a) + "/" == "/visit/" + (NatToString(a) + "/");
      assert "/visit/" + NatToString(b) + "/" == "/visit/" + (NatToString(b) + "/");
      CancelPrefix("/visit/", NatToString(a) + "/", NatToString(b) + "/");
      assert NatToString(a) == (NatToString(a) + "/")[..|NatToString(a) + "/"| - 1];
      assert NatToString(b) == (NatToString(b) + "/")[..|NatToString(b) + "/"| - 1];
      NatToStringInjective(a, b);
    }
  }

  /** What the "QR Code Preview" field shows. */
  datatype Preview =
    | Placeholder(text: string)
    | QrImage(src: string, downloadHref: string, downloadName: string)

  /**
    `qr_code_preview`: for an object without a primary key (none, or Python-falsy 0) a
    placeholder; otherwise the QR image and a download link, both pointing at the QR view's
    URL, which `reverse` resolves.
   */
  function QrCodePreview(pk: Option<nat>, name: string, reverse: nat -> string): Preview {
    if pk.None? || pk.value == 0 then Placeholder("Save first to see QR code")
    else
      var url := reverse(pk.value);
      QrImage(url, url, "qrcode_" + name + ".png")
  }

  lemma QrCodePreviewCases(pk: Option<nat>, name: string, reverse: nat -> string)
    ensures pk.None? ==> QrCodePreview(pk, name, reverse) == Placeholder("Save first to see QR code")
    ensures pk.Some? && pk.value > 0 ==>
      && QrCodePreview(pk, name, reverse).QrImage?
      && QrCodePreview(pk, name, reverse).src == reverse(pk.value)
      && QrCodePreview(pk, name, reverse).downloadHref == QrCodePreview(pk, name, reverse).src
  {
  }

  // ---------------------------------------------------------------------------
  // The statistics page
  // ---------------------------------------------------------------------------

  /** `location.scans.filter(timestamp__date=day)` restricted to one hour. */
  function AtOnHour(id: nat, day: int, h: nat): Scan -> bool {
    (s: Scan) => s.locationId == id && s.day == day && s.hour == h
  }

  /** Scans of the location on `day` whose hour is below `h`. */
  function AtOnBefore(id: nat, day: int, h: nat): Scan -> bool {
    (s: Scan) => s.locationId == id && s.day == day && s.hour < h
  }

  /** Scans of the location dated `day - 1` or `day`. */
  function AtTodayOrYesterday(id: nat, day: int): Scan -> bool {
    (s: Scan) => s.locationId == id && (s.day == day || s.day == day - 1)
  }

  /** One row of the hourly distribution. */
  datatype HourCount = HourCount(hour: Hour, count: nat)

  /**
    The grouped query for the hours below `h`: one row per hour that has scans today, in
    ascending hour order, carrying that hour's count.
   */
  function HourlyBelow(scans: seq<Scan>, id: nat, today: int, h: nat): (rows: seq<HourCount>)
    requires h <= 24
    ensures forall k :: 0 <= k < |rows| ==> rows[k].hour < h
    ensures forall k, l :: 0 <= k < l < |rows| ==> rows[k].hour < rows[l].hour
    ensures forall k :: 0 <= k < |rows| ==> rows[k].count > 0
    ensures forall k :: 0 <= k < |rows| ==> rows[k].count == CountWhere(scans, AtOnHour(id, today, rows[k].hour))
  {
    if h == 0 then []
    else
      var prev := HourlyBelow(scans, id, today, h - 1);
      var c := CountWhere(scans, AtOnHour(id, today, h - 1));
      if c > 0 then
        var rows := prev + [HourCount(h - 1, c)];
        assert rows[|prev|].hour == h - 1;
        assert forall k :: 0 <= k < |prev| ==> rows[k] == prev[k];
        rows
      else prev
  }

  /** No hour below `h` with scans today is missing from the rows. */
  lemma {:induction false} HourlyBelowComplete(scans: seq<Scan>, id: nat, today: int, h: nat, hr: Hour)
    requires h <= 24 && hr < h && CountWhere(scans, AtOnHour(id, today, hr)) > 0
    ensures exists k :: 0 <= k < |HourlyBelow(scans, id, today, h)| && HourlyBelow(scans, id, today, h)[k].hour == hr
  {
    var prev := HourlyBelow(scans, id, today, h - 1);
    var c := CountWhere(scans, AtOnHour(id, today, h - 1));
    var rows := HourlyBelow(scans, id, today, h);
    if hr == h - 1 {
      assert rows[|prev|].hour == hr;
    } else {
      HourlyBelowComplete(scans, id, today, h - 1, hr);
      var k :| 0 <= k < |prev| && prev[k].hour == hr;
      assert rows[k] == prev[k];
    }
  }

  function RowSum(rows: seq<HourCount>): nat {
    if |rows| == 0 then 0 else RowSum(rows[..|rows| - 1]) + rows[|rows| - 1].count
  }

  /** The counts of the hours below `h` add up to the scans of today with an hour below `h`. */
  lemma {:induction false} HourlyBelowSum(scans: seq<Scan>, id: nat, today: int, h: nat)
    requires h <= 24
    ensures RowSum(HourlyBelow(scans, id, today, h)) == CountWhere(scans, AtOnBefore(id, today, h))
  {
    if h == 0 {
      CountNone(scans, AtOnBefore(id, today, 0));
    } else {
      HourlyBelowSum(scans, id, today, h - 1);
      HourSplit(scans, id, today, h);
      HourlyRowsStep(scans, id, today, h);
    }
  }

  /** Today's scans below hour `h` are those below `h - 1` and those at `h - 1`. */
  lemma HourSplit(scans: seq<Scan>, id: nat, today: int, h: nat)
    requires 0 < h <= 24
    ensures CountWhere(scans, AtOnBefore(id, today, h - 1)) + CountWhere(scans, AtOnHour(id, today, h - 1))
            == CountWhere(scans, AtOnBefore(id, today, h))
  {
    CountDisjointUnion(scans, AtOnBefore(id, today, h - 1), AtOnHour(id, today, h - 1), AtOnBefore(id, today, h));
  }

  /** One more hour adds its count to the rows' sum, whether or not it gets a row. */
  lemma HourlyRowsStep(scans: seq<Scan>, id: nat, today: int, h: nat)
    requires 0 < h <= 24
    ensures RowSum(HourlyBelow(scans, id, today, h))
            == RowSum(HourlyBelow(scans, id, today, h - 1)) + CountWhere(scans, AtOnHour(id, today, h - 1))
  {
    var prev := HourlyBelow(scans, id, today, h - 1);
    var c := CountWhere(scans, AtOnHour(id, today, h - 1));
    if c > 0 {
      RowSumSnoc(prev, HourCount(h - 1, c));
    }
  }

  lemma RowSumSnoc(rows: seq<HourCount>, row: HourCount)
    ensures RowSum(rows + [row]) == RowSum(rows) + row.count
  {
    assert (rows + [row])[..|rows|] == rows;
  }

  /** A predicate that no scan satisfies counts nothing. */
  lemma {:induction false} CountNone(scans: seq<Scan>, p: Scan -> bool)
    requires forall k :: 0 <= k < |scans| ==> !p(scans[k])
    ensures CountWhere(scans, p) == 0
  {
    if |scans| > 0 {
      CountNone(scans[..|scans| - 1], p);
    }
  }

  /** The numbers `view_statistics_detail` puts on the page. */
  datatype LocationStatistics = LocationStatistics(
    todayCount: nat,
    yesterdayCount: nat,
    lastWeekCount: nat,
    lastMonthCount: nat,
    totalCount: nat,
    hourly: seq<HourCount>)

  function StatisticsDetail(loc: Location, scans: seq<Scan>, today: int): LocationStatistics {
    LocationStatistics(
      CountWhere(scans, AtOn(loc.id, today)),
      CountWhere(scans, AtOn(loc.id, today - 1)),
      CountWhere(scans, AtSince(loc.id, today - 7)),
      CountWhere(scans, AtSince(loc.id, today - 30)),
      CountWhere(scans, At(loc.id)),
      HourlyBelow(scans, loc.id, today, 24))
  }

  /**
    The windows nest: the last week is within the last month, which is within all scans, and
    today's and yesterday's exact-date counts together fit within the last week.
   */
  lemma StatisticsWindows(loc: Location, scans: seq<Scan>, today: int)
    ensures var st := StatisticsDetail(loc, scans, today);
      && st.lastWeekCount <= st.lastMonthCount <= st.totalCount
      && st.todayCount + st.yesterdayCount <= st.lastWeekCount
  {
    WiderWindowCountsMore(scans, loc.id, today - 7, today - 30);
    CountMonotone(scans, AtSince(loc.id, today - 30), At(loc.id));
    CountDisjointUnion(scans, AtOn(loc.id, today), AtOn(loc.id, today - 1), AtTodayOrYesterday(loc.id, today));
    CountMonotone(scans, AtTodayOrYesterday(loc.id, today), AtSince(loc.id, today - 7));
  }

  /** The hourly distribution is in ascending hour order and its counts add up to today's count. */
  lemma HourlySumsToToday(loc: Location, scans: seq<Scan>, today: int)
    ensures var st := StatisticsDetail(loc, scans, today);
      && (forall k, l :: 0 <= k < l < |st.hourly| ==> st.hourly[k].hour < st.hourly[l].hour)
      && RowSum(st.hourly) == st.todayCount
  {
    HourlyBelowSum(scans, loc.id, today, 24);
    CountMonotone(scans, AtOnBefore(loc.id, today, 24), AtOn(loc.id, today));
    CountMonotone(scans, AtOn(loc.id, today), AtOnBefore(loc.id, today, 24));
  }

  // ---------------------------------------------------------------------------
  // Read-only ledgers
  // ---------------------------------------------------------------------------

  /** The admin classes whose permissions are overridden. */
  datatype AdminView = ScanInline | ScanAdmin | PhoneClickAdmin

  datatype Permission = Add | Change | Delete | View

  /**
    Whether `view` grants `perm`; `granted` is what Django's default check would answer for
    the request's user.
   */
  function HasPermission(view: AdminView, perm: Permission, granted: bool): bool {
    match view
    case ScanInline => if perm == Add then false else granted
    case ScanAdmin => if perm == Add || perm == Change then false else granted
    case PhoneClickAdmin => if perm == Add || perm == Change then false else granted
  }

  /** Scans and phone clicks can never be added or changed through the admin, whoever asks. */
  lemma LedgersReadOnly(granted: bool)
    ensures !HasPermission(ScanInline, Add, granted)
    ensures forall v: AdminView :: !HasPermission(v, Add, granted)
    ensures !HasPermission(ScanAdmin, Change, granted) && !HasPermission(PhoneClickAdmin, Change, granted)
    ensures HasPermission(ScanAdmin, View, granted) == granted
  {
  }
}
