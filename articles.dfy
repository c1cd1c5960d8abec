/** The article list's "time ago" label: the distance between the article's
    date and now in whole days, rounded up, shown in days below a week, in
    weeks below thirty days and in months (of thirty days) beyond. */
module ArticlesPage {
  import opened Text

  /** `1000 * 60 * 60 * 24`: milliseconds in a day. */
  const MsPerDay: nat := 86400000

  function Abs(x: int): nat {
    if x < 0 then -x else x
  }

  /** `Math.ceil(a / b)` for a non-negative a and a positive b: the least q
      with q * b >= a. */
  function CeilDiv(a: nat, b: nat): (q: nat)
    requires b > 0
    ensures q * b >= a
    ensures a > 0 ==> (q - 1) * b < a
    ensures a == 0 ==> q == 0
  {
    var q := (a + b - 1) / b;
    var r := (a + b - 1) % b;
    assert a + b - 1 == q * b + r && 0 <= r < b;
    assert q * b == a + b - 1 - r;
    q
  }

  /** `diffDays`: the whole days between the two instants, rounded up. The
      date is the article's timestamp in milliseconds, as `getTime` gives it. */
  function DiffDays(date: int, now: int): (d: nat)
    ensures d * MsPerDay >= Abs(now - date)
    ensures Abs(now - date) > 0 ==> (d - 1) * MsPerDay < Abs(now - date)
    ensures d == 0 <==> date == now
  {
    CeilDiv(Abs(now - date), MsPerDay)
  }

  /** The label for a distance of d days. */
  function TimeAgo(d: nat): string {
    if d == 1 then "1 hari lalu"
    else if d < 7 then NatToString(d) + " hari lalu"
    else if d < 30 then NatToString(CeilDiv(d, 7)) + " minggu lalu"
    else NatToString(CeilDiv(d, 30)) + " bulan lalu"
  }

  /** `getTimeAgo(dateString)` with the clock's reading passed in as now. */
  function GetTimeAgo(date: int, now: int): string {
    TimeAgo(DiffDays(date, now))
  }

  /** The unit a distance of d days is shown in, and its length in days. */
  function UnitWord(d: nat): string {
    if d < 7 then "hari" else if d < 30 then "minggu" else "bulan"
  }

  function UnitDays(d: nat): (n: nat)
    ensures n > 0
  {
    if d < 7 then 1 else if d < 30 then 7 else 30
  }

  /** Every label is a count, a unit and "lalu"; the count is the number of
      whole units that cover d, rounded up. The special case for one day reads
      the same as the general one. */
  lemma TimeAgoShape(d: nat)
    ensures TimeAgo(d) == NatToString(CeilDiv(d, UnitDays(d))) + " " + UnitWord(d) + " lalu"
    ensures d < 7 ==> CeilDiv(d, UnitDays(d)) == d
  {
    var n := NatToString(CeilDiv(d, UnitDays(d)));
    var w := UnitWord(d);
    assert n + " " + w + " lalu" == n + (" " + w + " lalu");
    if d < 7 {
      assert UnitDays(d) == 1 && w == "hari";
      assert CeilDiv(d, 1) == d;
      assert " " + "hari" + " lalu" == " hari lalu";
      if d == 1 {
        assert NatToString(1) == "1";
      }
    } else if d < 30 {
      assert UnitDays(d) == 7 && w == "minggu";
      assert " " + "minggu" + " lalu" == " minggu lalu";
    } else {
      assert UnitDays(d) == 30 && w == "bulan";
      assert " " + "bulan" + " lalu" == " bulan lalu";
    }
  }

  /** A week count lies between 1 and 5. */
  lemma WeeksRange(d: nat)
    requires 7 <= d < 30
    ensures 1 <= CeilDiv(d, 7) <= 5
  {
  }

  /** A month count is at least 1, and exactly 1 up to thirty days. */
  lemma MonthsRange(d: nat)
    requires 30 <= d
    ensures CeilDiv(d, 30) >= 1
    ensures CeilDiv(d, 30) == 1 <==> d == 30
  {
  }

  /** `Math.abs` makes the label the same for a date delta before now and
      for one delta after it. */
  lemma PastAndFutureAlike(now: int, delta: int)
    ensures GetTimeAgo(now - delta, now) == GetTimeAgo(now + delta, now)
  {
    assert Abs(now - (now - delta)) == Abs(now - (now + delta));
  }

  /** The same instant reads "0 hari lalu"; anything up to one day later
      reads "1 hari lalu". */
  lemma SameDay(now: int, ms: int)
    requires 0 < ms <= MsPerDay
    ensures GetTimeAgo(now, now) == "0 hari lalu"
    ensures GetTimeAgo(now - ms, now) == "1 hari lalu"
  {
    assert NatToString(0) == "0";
    assert DiffDays(now - ms, now) == 1;
  }
}
