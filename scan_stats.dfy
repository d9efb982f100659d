/**
  The scan ledger of main/models.py and the counting that both statistics bots and the admin
  statistics page run over it. Dates are day numbers as `date.toordinal()` gives them (0001-01-01
  is day 1); "today" is always a parameter.
 */
module ScanStats {
  import opened Maybe

  /** A user account attached to a location (the `user` many-to-many of a Location). */
  datatype Account = Account(username: string, phoneNumber: string)

  /** A Location row. `users` is the many-to-many set of owning accounts, in query order. */
  datatype Location = Location(id: nat, name: string, description: string, createdDay: int, users: seq<Account>)

  /** The hour of a timestamp, as `EXTRACT(hour FROM timestamp)` yields it. */
  type Hour = h: nat | h < 24

  /** A QRCodeScan row: the location it belongs to, the date and hour of its timestamp. */
  datatype Scan = Scan(locationId: nat, day: int, hour: Hour, ipAddress: Option<string>, userAgent: string)

  /** The two tables the statistics read. */
  datatype Db = Db(locations: seq<Location>, scans: seq<Scan>)

  /** Location ids are primary keys. */
  predicate DistinctIds(locs: seq<Location>) {
    forall i, j :: 0 <= i < j < |locs| ==> locs[i].id != locs[j].id
  }

  predicate HasLocation(locs: seq<Location>, id: nat) {
    exists i :: 0 <= i < |locs| && locs[i].id == id
  }

  /** Primary keys are distinct and every scan references an existing location (the foreign key). */
  predicate WellFormed(db: Db) {
    DistinctIds(db.locations)
    && forall k :: 0 <= k < |db.scans| ==> HasLocation(db.locations, db.scans[k].locationId)
  }

  // ---------------------------------------------------------------------------
  // Counting: `filter(...).count()`
  // ---------------------------------------------------------------------------

  /** Number of scans satisfying `p`. */
  function CountWhere(scans: seq<Scan>, p: Scan -> bool): (n: nat)
    ensures n <= |scans|
  {
    if |scans| == 0 then 0
    else CountWhere(scans[..|scans| - 1], p) + (if p(scans[|scans| - 1]) then 1 else 0)
  }

  /** `timestamp__date__gte=start` */
  function Since(start: int): Scan -> bool {
    (s: Scan) => s.day >= start
  }

  /** `timestamp__date=day` */
  function On(day: int): Scan -> bool {
    (s: Scan) => s.day == day
  }

  /** `loc.scans`: the scans of one location. */
  function At(id: nat): Scan -> bool {
    (s: Scan) => s.locationId == id
  }

  /** `loc.scans.filter(timestamp__date__gte=start)` */
  function AtSince(id: nat, start: int): Scan -> bool {
    (s: Scan) => s.locationId == id && s.day >= start
  }

  /** `loc.scans.filter(timestamp__date=day)` */
  function AtOn(id: nat, day: int): Scan -> bool {
    (s: Scan) => s.locationId == id && s.day == day
  }

  /** Counting is monotone in the predicate. */
  lemma {:induction false} CountMonotone(scans: seq<Scan>, p: Scan -> bool, q: Scan -> bool)
    requires forall k :: 0 <= k < |scans| ==> p(scans[k]) ==> q(scans[k])
    ensures CountWhere(scans, p) <= CountWhere(scans, q)
  {
    if |scans| > 0 {
      CountMonotone(scans[..|scans| - 1], p, q);
    }
  }

  /** Counts of two disjoint predicates add up to the count of their union. */
  lemma {:induction false} CountDisjointUnion(scans: seq<Scan>, p: Scan -> bool, q: Scan -> bool, r: Scan -> bool)
    requires forall k :: 0 <= k < |scans| ==> !(p(scans[k]) && q(scans[k]))
    requires forall k :: 0 <= k < |scans| ==> (r(scans[k]) <==> p(scans[k]) || q(scans[k]))
    ensures CountWhere(scans, p) + CountWhere(scans, q) == CountWhere(scans, r)
  {
    if |scans| > 0 {
      CountDisjointUnion(scans[..|scans| - 1], p, q, r);
    }
  }

  /** A longer look-back window never counts fewer scans. */
  lemma WiderWindowCountsMore(scans: seq<Scan>, id: nat, start: int, start': int)
    requires start' <= start
    ensures CountWhere(scans, AtSince(id, start)) <= CountWhere(scans, AtSince(id, start'))
    ensures CountWhere(scans, Since(start)) <= CountWhere(scans, Since(start'))
  {
    CountMonotone(scans, AtSince(id, start), AtSince(id, start'));
    CountMonotone(scans, Since(start), Since(start'));
  }

  // ---------------------------------------------------------------------------
  // Per-location counts add up to the total
  // ---------------------------------------------------------------------------

  /** Sum over the locations of each location's count in the window starting at `start`. */
  function SumAtSince(locs: seq<Location>, scans: seq<Scan>, start: int): nat {
    if |locs| == 0 then 0
    else SumAtSince(locs[..|locs| - 1], scans, start) + CountWhere(scans, AtSince(locs[|locs| - 1].id, start))
  }

  /** Number of locations whose windowed count a single scan `s` contributes to. */
  function Hits(locs: seq<Location>, s: Scan, start: int): nat {
    if |locs| == 0 then 0
    else Hits(locs[..|locs| - 1], s, start) + (if AtSince(locs[|locs| - 1].id, start)(s) then 1 else 0)
  }

  lemma {:induction false} SumAtSinceSnoc(locs: seq<Location>, scans: seq<Scan>, s: Scan, start: int)
    ensures SumAtSince(locs, scans + [s], start) == SumAtSince(locs, scans, start) + Hits(locs, s, start)
  {
    if |locs| > 0 {
      SumAtSinceSnoc(locs[..|locs| - 1], scans, s, start);
      assert (scans + [s])[..|scans + [s]| - 1] == scans;
    }
  }

  lemma {:induction false} SumAtSinceNoScans(locs: seq<Location>, start: int)
    ensures SumAtSince(locs, [], start) == 0
  {
    if |locs| > 0 {
      SumAtSinceNoScans(locs[..|locs| - 1], start);
    }
  }

  /** With distinct ids, a scan of an existing location hits exactly that one location. */
  lemma {:induction false} HitsOnce(locs: seq<Location>, s: Scan, start: int)
    requires DistinctIds(locs)
    ensures Hits(locs, s, start) == if HasLocation(locs, s.locationId) && s.day >= start then 1 else 0
  {
    if |locs| > 0 {
      var init := locs[..|locs| - 1];
      assert DistinctIds(init);
      HitsOnce(init, s, start);
      var last := locs[|locs| - 1];
      if last.id != s.locationId {
        if HasLocation(locs, s.locationId) {
          var i :| 0 <= i < |locs| && locs[i].id == s.locationId;
          assert i < |init| && init[i].id == s.locationId;
        }
      }
    }
  }

  /**
    Every scan has exactly one location. So, for any window, the per-location counts over all
    locations add up to the total count.
   */
  lemma {:induction false} PerLocationCountsSumToTotal(db: Db, start: int)
    requires WellFormed(db)
    ensures SumAtSince(db.locations, db.scans, start) == CountWhere(db.scans, Since(start))
    decreases |db.scans|
  {
    var scans := db.scans;
    if |scans| > 0 {
      var init := scans[..|scans| - 1];
      var s := scans[|scans| - 1];
      assert WellFormed(Db(db.locations, init));
      PerLocationCountsSumToTotal(Db(db.locations, init), start);
      assert init + [s] == scans;
      SumAtSinceSnoc(db.locations, init, s, start);
      HitsOnce(db.locations, s, start);
      assert HasLocation(db.locations, s.locationId);
      assert CountWhere(scans, Since(start)) == CountWhere(init, Since(start)) + (if s.day >= start then 1 else 0);
    } else {
      SumAtSinceNoScans(db.locations, start);
    }
  }

  // ---------------------------------------------------------------------------
  // Percentage shares
  // ---------------------------------------------------------------------------

  /** `(cnt / total * 100) if total else 0`, over exact reals. */
  function Share(cnt: nat, total: nat): real {
    if total > 0 then (cnt as real) / (total as real) * 100.0 else 0.0
  }

  /**
    A share is a percentage of the total: scaled back by the total it gives the count times 100,
    it is never negative, at most 100 when the count is part of the total, and 0 for an empty total.
   */
  lemma ShareIsPercentage(cnt: nat, total: nat)
    ensures total == 0 ==> Share(cnt, total) == 0.0
    ensures total > 0 ==> Share(cnt, total) * (total as real) == (cnt as real) * 100.0
    ensures 0.0 <= Share(cnt, total)
    ensures cnt <= total ==> Share(cnt, total) <= 100.0
  {
    if total > 0 {
      var t := total as real;
      var q := (cnt as real) / t;
      assert q * t == cnt as real;
      assert Share(cnt, total) * t == (q * t) * 100.0;
      if cnt <= total {
        assert q <= 1.0;
      }
    }
  }

  // ---------------------------------------------------------------------------
  // The `/stats` reply: a header, the total, and one line per location in admin scope
  // ---------------------------------------------------------------------------

  datatype StatsLine =
    | Header(days: nat)
    | TotalLine(total: nat)
    | LocationLine(name: string, count: nat, share: real)

  /** One line per location: its count in the window starting at `start` and its share of `total`. */
  function LocationLines(locs: seq<Location>, scans: seq<Scan>, start: int, total: nat): (lines: seq<StatsLine>)
    ensures |lines| == |locs|
  {
    if |locs| == 0 then []
    else
      var last := locs[|locs| - 1];
      var cnt := CountWhere(scans, AtSince(last.id, start));
      LocationLines(locs[..|locs| - 1], scans, start, total) + [LocationLine(last.name, cnt, Share(cnt, total))]
  }

  /**
    The lines `_send_stats` collects for a window of `days` days ending today: the header, the
    total over all scans, then, in admin scope only, each location's count and share.
   */
  function StatsLines(db: Db, today: int, days: nat, adminScope: bool): seq<StatsLine> {
    var start := today - days;
    var total := CountWhere(db.scans, Since(start));
    [Header(days), TotalLine(total)] + (if adminScope then LocationLines(db.locations, db.scans, start, total) else [])
  }

  /** `date.toordinal()` of 0001-01-01 and of 9999-12-31, the first and last dates Python represents. */
  const MinDay := 1
  const MaxDay := 3652059

  /** The largest number of days a `timedelta` holds. */
  const MaxTimedeltaDays := 999999999

  /**
    `today - timedelta(days=days)` yields a date: `timedelta` accepts the count and the start is
    not before 0001-01-01. Otherwise Python raises OverflowError.
   */
  predicate WindowFits(today: int, days: nat) {
    days <= MaxTimedeltaDays && today - days >= MinDay
  }

  /**
    What `_send_stats` sends: its lines, or, when computing the start of the window raised, the
    error handler's notice.
   */
  datatype StatsReply = StatsText(lines: seq<StatsLine>) | StatsFailed

  /** Sum of the counts on location lines. */
  function CountSum(lines: seq<StatsLine>): nat {
    if |lines| == 0 then 0
    else CountSum(lines[..|lines| - 1]) + (if lines[|lines| - 1].LocationLine? then lines[|lines| - 1].count else 0)
  }

  /** Sum of the shares on location lines. */
  function ShareSum(lines: seq<StatsLine>): real {
    if |lines| == 0 then 0.0
    else ShareSum(lines[..|lines| - 1]) + (if lines[|lines| - 1].LocationLine? then lines[|lines| - 1].share else 0.0)
  }

  /** The i-th location line carries the i-th location's name, count and share. */
  lemma {:induction false} LocationLinesAt(locs: seq<Location>, scans: seq<Scan>, start: int, total: nat, i: nat)
    requires i < |locs|
    ensures var cnt := CountWhere(scans, AtSince(locs[i].id, start));
      LocationLines(locs, scans, start, total)[i] == LocationLine(locs[i].name, cnt, Share(cnt, total))
  {
    if i < |locs| - 1 {
      LocationLinesAt(locs[..|locs| - 1], scans, start, total, i);
    }
  }

  lemma {:induction false} LocationLinesCountSum(locs: seq<Location>, scans: seq<Scan>, start: int, total: nat)
    ensures CountSum(LocationLines(locs, scans, start, total)) == SumAtSince(locs, scans, start)
  {
    if |locs| > 0 {
      var init := locs[..|locs| - 1];
      LocationLinesCountSum(init, scans, start, total);
      var lines := LocationLines(locs, scans, start, total);
      assert lines[..|lines| - 1] == LocationLines(init, scans, start, total);
    }
  }

  /** Shares of one total add like their counts. */
  lemma ShareAdd(x: nat, c: nat, total: nat)
    ensures Share(x, total) + Share(c, total) == Share(x + c, total)
  {
    if total > 0 {
      var t := total as real;
      assert (x as real) / t + (c as real) / t == ((x + c) as real) / t;
    }
  }

  /** The shares on the location lines add up to the share of the summed counts. */
  lemma {:induction false} LocationLinesShareSum(locs: seq<Location>, scans: seq<Scan>, start: int, total: nat)
    ensures ShareSum(LocationLines(locs, scans, start, total)) == Share(SumAtSince(locs, scans, start), total)
  {
    if |locs| > 0 {
      var init := locs[..|locs| - 1];
      LocationLinesShareSum(init, scans, start, total);
      var c := CountWhere(scans, AtSince(locs[|locs| - 1].id, start));
      var prev := LocationLines(init, scans, start, total);
      var line := LocationLine(locs[|locs| - 1].name, c, Share(c, total));
      assert LocationLines(locs, scans, start, total) == prev + [line];
      ShareSumSnoc(prev, line);
      ShareAdd(SumAtSince(init, scans, start), c, total);
    }
  }

  lemma ShareSumSnoc(prev: seq<StatsLine>, line: StatsLine)
    requires line.LocationLine?
    ensures ShareSum(prev + [line]) == ShareSum(prev) + line.share
  {
    assert (prev + [line])[..|prev|] == prev;
  }

  /** Header and total only: everything after them is a location line. */
  lemma {:induction false} CountSumSkipsHeader(lines: seq<StatsLine>, days: nat, total: nat)
    ensures CountSum([Header(days), TotalLine(total)] + lines) == CountSum(lines)
    ensures ShareSum([Header(days), TotalLine(total)] + lines) == ShareSum(lines)
  {
    var pre := [Header(days), TotalLine(total)];
    if |lines| == 0 {
      assert (pre + lines)[..1] == [Header(days)];
      assert [Header(days)][..0] == [];
    } else {
      CountSumSkipsHeader(lines[..|lines| - 1], days, total);
      assert (pre + lines)[..|pre + lines| - 1] == pre + lines[..|lines| - 1];
    }
  }

  /** Outside admin scope the reply is exactly the header and the total. */
  lemma StatsLinesNonAdmin(db: Db, today: int, days: nat)
    ensures StatsLines(db, today, days, false) == [Header(days), TotalLine(CountWhere(db.scans, Since(today - days)))]
  {
  }

  /**
    In admin scope the reply has one line per location after the header and total; the
    location counts add up to the total, and when the total is positive the shares add up
    to 100, while with no scan in the window every share is 0.
   */
  lemma StatsLinesAdmin(db: Db, today: int, days: nat)
    requires WellFormed(db)
    ensures var lines := StatsLines(db, today, days, true);
      var total := CountWhere(db.scans, Since(today - days));
      && |lines| == 2 + |db.locations|
      && lines[0] == Header(days) && lines[1] == TotalLine(total)
      && CountSum(lines) == total
      && (total > 0 ==> ShareSum(lines) == 100.0)
      && (total == 0 ==> forall i :: 2 <= i < |lines| ==> lines[i].LocationLine? && lines[i].share == 0.0)
  {
    var start := today - days;
    var total := CountWhere(db.scans, Since(start));
    var locLines := LocationLines(db.locations, db.scans, start, total);
    CountSumSkipsHeader(locLines, days, total);
    LocationLinesCountSum(db.locations, db.scans, start, total);
    PerLocationCountsSumToTotal(db, start);
    LocationLinesShareSum(db.locations, db.scans, start, total);
    ShareIsPercentage(total, total);
    if total == 0 {
      ZeroTotalShares(db, today, days);
    }
  }

  /** With no scan in the window, every location line shows a share of 0. */
  lemma ZeroTotalShares(db: Db, today: int, days: nat)
    requires CountWhere(db.scans, Since(today - days)) == 0
    ensures var lines := StatsLines(db, today, days, true);
      forall i :: 2 <= i < |lines| ==> lines[i].LocationLine? && lines[i].share == 0.0
  {
    var lines := StatsLines(db, today, days, true);
    forall i | 2 <= i < |lines|
      ensures lines[i].LocationLine? && lines[i].share == 0.0
    {
      LocationLinesAt(db.locations, db.scans, today - days, 0, i - 2);
    }
  }

  // ---------------------------------------------------------------------------
  // The `/compare` reply: four windows, one count per location in each
  // ---------------------------------------------------------------------------

  datatype CompareLine =
    | CompareTitle
    | WindowLabel(caption: string)
    | LocationCount(name: string, count: nat)
    | Blank

  /** The (label, delta) pairs `_send_compare` walks through, in order. */
  const CompareWindows: seq<(string, nat)> := [("Сегодня", 0), ("Вчера", 1), ("7 дней", 7), ("30 дней", 30)]

  /** Delta 0 counts the scans dated today; any other delta counts those since today - delta. */
  function WindowCount(scans: seq<Scan>, id: nat, today: int, delta: nat): nat {
    if delta == 0 then CountWhere(scans, AtOn(id, today)) else CountWhere(scans, AtSince(id, today - delta))
  }

  function CountLines(locs: seq<Location>, scans: seq<Scan>, today: int, delta: nat): (lines: seq<CompareLine>)
    ensures |lines| == |locs|
    ensures forall j :: 0 <= j < |locs| ==> lines[j] == LocationCount(locs[j].name, WindowCount(scans, locs[j].id, today, delta))
  {
    if |locs| == 0 then []
    else
      var last := locs[|locs| - 1];
      CountLines(locs[..|locs| - 1], scans, today, delta) + [LocationCount(last.name, WindowCount(scans, last.id, today, delta))]
  }

  /** One window's section: its label, a count line per location, a blank line. */
  function CompareSection(db: Db, today: int, w: (string, nat)): seq<CompareLine> {
    [WindowLabel(w.0)] + CountLines(db.locations, db.scans, today, w.1) + [Blank]
  }

  /** The sections of the first `k` windows. */
  function CompareSections(db: Db, today: int, k: nat): (lines: seq<CompareLine>)
    requires k <= |CompareWindows|
    ensures |lines| == k * (|db.locations| + 2)
  {
    if k == 0 then [] else CompareSections(db, today, k - 1) + CompareSection(db, today, CompareWindows[k - 1])
  }

  /** The lines `_send_compare` collects. */
  function CompareLines(db: Db, today: int): seq<CompareLine> {
    [CompareTitle] + CompareSections(db, today, |CompareWindows|)
  }

  /** Where each window's lines sit in the sections. */
  lemma {:induction false} CompareSectionsAt(db: Db, today: int, k: nat, w: nat, j: nat)
    requires w < k <= |CompareWindows| && j < |db.locations|
    ensures var lines := CompareSections(db, today, k);
      var base := w * (|db.locations| + 2);
      && base + 1 + |db.locations| < |lines|
      && lines[base] == WindowLabel(CompareWindows[w].0)
      && lines[base + 1 + j] == LocationCount(db.locations[j].name,
                                              WindowCount(db.scans, db.locations[j].id, today, CompareWindows[w].1))
      && lines[base + 1 + |db.locations|] == Blank
  {
    var n := |db.locations| + 2;
    if w < k - 1 {
      CompareSectionsAt(db, today, k - 1, w, j);
      assert (w + 1) * n <= (k - 1) * n;
    } else {
      assert w * n == (k - 1) * n;
    }
  }

  /**
    The reply starts with the title, then for each window in turn its label, one count for every
    location and a blank line.
   */
  lemma CompareLinesLayout(db: Db, today: int, w: nat, j: nat)
    requires w < |CompareWindows| && j < |db.locations|
    ensures var lines := CompareLines(db, today);
      var base := 1 + w * (|db.locations| + 2);
      && |lines| == 1 + 4 * (|db.locations| + 2)
      && lines[0] == CompareTitle
      && lines[base] == WindowLabel(CompareWindows[w].0)
      && lines[base + 1 + j] == LocationCount(db.locations[j].name,
                                              WindowCount(db.scans, db.locations[j].id, today, CompareWindows[w].1))
      && lines[base + 1 + |db.locations|] == Blank
  {
    var secs := CompareSections(db, today, |CompareWindows|);
    var lines := CompareLines(db, today);
    CompareSectionsAt(db, today, |CompareWindows|, w, j);
    var base := w * (|db.locations| + 2);
    assert base == if w == 0 then 0 else if w == 1 then |db.locations| + 2
                   else if w == 2 then 2 * |db.locations| + 4 else 3 * |db.locations| + 6;
    assert lines == [CompareTitle] + secs;
    assert lines[1 + base] == secs[base];
    assert lines[1 + base + 1 + j] == secs[base + 1 + j];
    assert lines[1 + base + 1 + |db.locations|] == secs[base + 1 + |db.locations|];
  }

  /** Per location, the four compared windows are nested: today <= "Вчера" <= 7 days <= 30 days. */
  lemma CompareWindowsNested(scans: seq<Scan>, id: nat, today: int)
    ensures WindowCount(scans, id, today, 0) <= WindowCount(scans, id, today, 1)
    ensures WindowCount(scans, id, today, 1) <= WindowCount(scans, id, today, 7)
    ensures WindowCount(scans, id, today, 7) <= WindowCount(scans, id, today, 30)
  {
    CountMonotone(scans, AtOn(id, today), AtSince(id, today - 1));
    WiderWindowCountsMore(scans, id, today - 1, today - 7);
    WiderWindowCountsMore(scans, id, today - 7, today - 30);
  }
}
