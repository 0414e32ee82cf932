/** Date partitions of a table whose key is a BID: yearly, monthly, half-monthly and daily. The inputs are
    the UTC dates of the BIDs. */
module Partitions {

  datatype Date = Date(y: int, m: int, d: int)

  predicate Leap(y: int) {
    y % 4 == 0 && (y % 100 != 0 || y % 400 == 0)
  }

  function DaysIn(y: int, m: int): int {
    if m == 2 then (if Leap(y) then 29 else 28)
    else if m == 4 || m == 6 || m == 9 || m == 11 then 30
    else 31
  }

  predicate Valid(t: Date) {
    1 <= t.m <= 12 && 1 <= t.d <= DaysIn(t.y, t.m)
  }

  /** Dates compare by year, month and day. */
  function Order(t: Date): int {
    (t.y * 12 + t.m) * 32 + t.d
  }

  /** `time.Date`: a month or a day beyond the end runs over into the next year or month. */
  function Normal(y: int, m: int, d: int): Date
    decreases d
  {
    if m > 12 then Normal2(y + 1, 1, d) else Normal2(y, m, d)
  }

  function Normal2(y: int, m: int, d: int): Date
    decreases d
  {
    if d <= DaysIn(y, m) then Date(y, m, d)
    else if m >= 12 then Normal2(y + 1, 1, d - DaysIn(y, m))
    else Normal2(y, m + 1, d - DaysIn(y, m))
  }

  function AddDate(t: Date, years: int, months: int, days: int): Date {
    Normal(t.y + years, t.m + months, t.d + days)
  }

  // ---------------------------------------------------------------- the calendar

  /** The days since a fixed day, by arithmetic alone: years begin with March, and five months of them have
      153 days. */
  function DayNumber(t: Date): int {
    var y := if t.m <= 2 then t.y - 1 else t.y;
    365 * y + LeapDays(y) + MonthDays(t.m) + t.d
  }

  /** How many leap days lie before March of year `y`, up to a constant. */
  function LeapDays(y: int): int {
    y / 4 - y / 100 + y / 400
  }

  /** The days from the first of March to the first of month `m`. */
  function MonthDays(m: int): int {
    (153 * ((m + 9) % 12) + 2) / 5
  }

  lemma Multiples(y: int)
    ensures y / 4 - (y - 1) / 4 == if y % 4 == 0 then 1 else 0
    ensures y / 100 - (y - 1) / 100 == if y % 100 == 0 then 1 else 0
    ensures y / 400 - (y - 1) / 400 == if y % 400 == 0 then 1 else 0
    ensures y % 400 == 0 ==> y % 100 == 0
    ensures y % 100 == 0 ==> y % 4 == 0
  {
  }

  lemma LeapDaysStep(y: int)
    ensures LeapDays(y) - LeapDays(y - 1) == if y % 400 == 0 || (y % 4 == 0 && y % 100 != 0) then 1 else 0
  {
    Multiples(y);
    var a, b, c := y / 4, y / 100, y / 400;
    var d, e, f := (y - 1) / 4, (y - 1) / 100, (y - 1) / 400;
    assert LeapDays(y) == a - b + c;
    assert LeapDays(y - 1) == d - e + f;
  }

  lemma LeapDaysCycle(y: int)
    ensures LeapDays(y + 400) == LeapDays(y) + 97
  {
    assert (y + 400) / 4 == y / 4 + 100 && (y + 400) / 100 == y / 100 + 4 && (y + 400) / 400 == y / 400 + 1;
  }

  lemma MonthStep(y: int, m: int)
    requires 1 <= m <= 12
    ensures m == 2 ==> MonthDays(2) == 337 && MonthDays(3) == 0
    ensures m != 2 ==> MonthDays(if m == 12 then 1 else m + 1) == MonthDays(m) + DaysIn(y, m)
  {
    hide Leap;
  }

  lemma FebruaryDays(y: int)
    ensures DaysIn(y, 2) == 28 + LeapDays(y) - LeapDays(y - 1)
  {
    LeapDaysStep(y);
    hide LeapDays;
  }

  /** `AddDate` goes to the next day of the Gregorian calendar. */
  lemma NextDayNumber(t: Date)
    requires Valid(t)
    ensures Valid(AddDate(t, 0, 0, 1)) && DayNumber(AddDate(t, 0, 0, 1)) == DayNumber(t) + 1
  {
    hide AddDate, LeapDays, MonthDays, DaysIn, Leap;
    NextDay(t);
    MonthStep(t.y, t.m);
    FebruaryDays(t.y);
    DaysBounds(t.y + 1, 1);
    DaysBounds(t.y, t.m + 1);
  }

  /** The days from the first of January to the next, and of 400 years. */
  lemma YearDays(y: int)
    ensures DayNumber(AddDate(Date(y, 1, 1), 1, 0, 0)) - DayNumber(Date(y, 1, 1)) ==
            if y % 400 == 0 || (y % 4 == 0 && y % 100 != 0) then 366 else 365
    ensures DayNumber(Date(y + 400, 1, 1)) - DayNumber(Date(y, 1, 1)) == 146097
  {
    NextMonth(y, 1);
    LeapDaysStep(y);
    LeapDaysCycle(y - 1);
    hide LeapDays, AddDate;
  }

  // ---------------------------------------------------------------- names

  /** "%04d" and "%02d", as ASCII codes. */
  function Four(n: int): seq<int> {
    [48 + n / 1000, 48 + n / 100 % 10, 48 + n / 10 % 10, 48 + n % 10]
  }

  function Two(n: int): seq<int> {
    [48 + n / 10, 48 + n % 10]
  }

  const YEAR := 121
  const MONTH := 109
  const WEEK := 119
  const DAY := 100

  datatype Granularity = Yearly | Monthly | Halves | Daily

  /** A partition holds the dates from `from` on and before `to`. */
  datatype Spec = Spec(name: seq<int>, from: Date, to: Date)

  predicate Within(t: Date, s: Spec) {
    Order(s.from) <= Order(t) < Order(s.to)
  }

  /** The partition of a date. */
  function PartitionOf(g: Granularity, t: Date): Spec {
    match g
    case Yearly => Spec([YEAR] + Four(t.y), Date(t.y, 1, 1), AddDate(Date(t.y, 1, 1), 1, 0, 0))
    case Monthly => Spec([YEAR] + Four(t.y) + [MONTH] + Two(t.m), Date(t.y, t.m, 1), AddDate(Date(t.y, t.m, 1), 0, 1, 0))
    case Halves => (
      var w := if t.d > 15 then 2 else 1;
      Spec([YEAR] + Four(t.y) + [MONTH] + Two(t.m) + [MONTH, WEEK, 48 + w],
           if w == 2 then Date(t.y, t.m, 16) else Date(t.y, t.m, 1),
           if w == 2 then AddDate(Date(t.y, t.m, 1), 0, 1, 0) else Date(t.y, t.m, 16)))
    case Daily => Spec([YEAR] + Four(t.y) + [MONTH] + Two(t.m) + [DAY] + Two(t.d), t, AddDate(t, 0, 0, 1))
  }

  /** The years of 32-bit seconds and all others of four digits. */
  predicate Input(t: Date) {
    Valid(t) && 0 <= t.y <= 9999
  }

  // ---------------------------------------------------------------- every date in its own partition and no other

  lemma NextMonth(y: int, m: int)
    requires 1 <= m <= 12
    ensures AddDate(Date(y, m, 1), 0, 1, 0) == if m == 12 then Date(y + 1, 1, 1) else Date(y, m + 1, 1)
    ensures AddDate(Date(y, 1, 1), 1, 0, 0) == Date(y + 1, 1, 1)
  {
  }

  lemma NextDay(t: Date)
    requires Valid(t)
    ensures AddDate(t, 0, 0, 1) ==
            if t.d < DaysIn(t.y, t.m) then Date(t.y, t.m, t.d + 1)
            else if t.m == 12 then Date(t.y + 1, 1, 1) else Date(t.y, t.m + 1, 1)
  {
    assert Normal2(t.y + 1, 1, 1) == Date(t.y + 1, 1, 1) && Normal2(t.y, t.m + 1, 1) == Date(t.y, t.m + 1, 1);
    assert AddDate(t, 0, 0, 1) == Normal2(t.y, t.m, t.d + 1);
  }

  /** The dates that share a partition. */
  predicate Together(g: Granularity, t: Date, u: Date) {
    match g
    case Yearly => t.y == u.y
    case Monthly => t.y == u.y && t.m == u.m
    case Halves => t.y == u.y && t.m == u.m && (t.d > 15 <==> u.d > 15)
    case Daily => t == u
  }

  lemma DaysBounds(y: int, m: int)
    ensures 28 <= DaysIn(y, m) <= 31
  {
  }

  lemma YearRange(t: Date, u: Date)
    requires Valid(t) && Valid(u)
    ensures Order(Date(t.y, 1, 1)) <= Order(u) < Order(Date(t.y + 1, 1, 1)) <==> t.y == u.y
  {
    DaysBounds(u.y, u.m);
    hide DaysIn;
  }

  function MonthEnd(t: Date): Date {
    if t.m == 12 then Date(t.y + 1, 1, 1) else Date(t.y, t.m + 1, 1)
  }

  lemma MonthRange(t: Date, u: Date, d: int)
    requires Valid(t) && Valid(u) && 1 <= d <= 28
    ensures Order(Date(t.y, t.m, d)) <= Order(u) < Order(MonthEnd(t)) <==> t.y == u.y && t.m == u.m && d <= u.d
    ensures Valid(MonthEnd(t)) && Valid(Date(t.y, t.m, d))
  {
    DaysBounds(u.y, u.m);
    DaysBounds(t.y, t.m);
    DaysBounds(MonthEnd(t).y, MonthEnd(t).m);
    hide DaysIn;
  }

  lemma DayRange(t: Date, u: Date)
    requires Valid(t) && Valid(u)
    ensures var next := if t.d < DaysIn(t.y, t.m) then Date(t.y, t.m, t.d + 1) else MonthEnd(t);
            Valid(next) && (Order(t) <= Order(u) < Order(next) <==> t == u)
  {
    DaysBounds(u.y, u.m);
    DaysBounds(t.y, t.m);
    DaysBounds(MonthEnd(t).y, MonthEnd(t).m);
    hide DaysIn;
  }

  lemma RangeIsTogether(g: Granularity, t: Date, u: Date)
    requires Valid(t) && Valid(u)
    ensures Valid(PartitionOf(g, t).from) && Valid(PartitionOf(g, t).to)
    ensures Within(u, PartitionOf(g, t)) <==> Together(g, t, u)
  {
    hide AddDate, Four, Two, DaysIn, Order;
    NextMonth(t.y, t.m);
    match g
    case Yearly =>
      YearRange(t, u);
      DaysBounds(t.y, 1);
      DaysBounds(t.y + 1, 1);
    case Monthly =>
      MonthRange(t, u, 1);
    case Halves =>
      MonthRange(t, u, 1);
      MonthRange(t, u, 16);
      HalfRange(t, u);
    case Daily =>
      NextDay(t);
      DayRange(t, u);
  }

  lemma HalfRange(t: Date, u: Date)
    requires Valid(t) && Valid(u)
    ensures Order(Date(t.y, t.m, 1)) <= Order(u) < Order(Date(t.y, t.m, 16)) <==> t.y == u.y && t.m == u.m && u.d <= 15
  {
    DaysBounds(u.y, u.m);
    DaysBounds(t.y, t.m);
    hide DaysIn;
  }

  lemma TogetherSame(g: Granularity, t: Date, u: Date)
    ensures Together(g, t, u) ==> PartitionOf(g, u) == PartitionOf(g, t)
    ensures PartitionOf(g, u).from == PartitionOf(g, t).from ==> Together(g, t, u)
  {
    hide AddDate, Four, Two;
  }

  /** The dates of a partition are the dates that have it. */
  lemma RangeIsClass(g: Granularity, t: Date, u: Date)
    requires Valid(t) && Valid(u)
    ensures Valid(PartitionOf(g, t).from) && Valid(PartitionOf(g, t).to)
    ensures Within(u, PartitionOf(g, t)) <==> PartitionOf(g, u).from == PartitionOf(g, t).from
    ensures Within(u, PartitionOf(g, t)) <==> PartitionOf(g, u) == PartitionOf(g, t)
  {
    RangeIsTogether(g, t, u);
    TogetherSame(g, t, u);
    hide PartitionOf, Within, Valid, Together;
  }

  lemma Tens(n: int)
    requires 0 <= n
    ensures n / 100 == n / 10 / 10 && n / 1000 == n / 100 / 10
    ensures n == n / 10 * 10 + n % 10 && n / 10 == n / 100 * 10 + n / 10 % 10 && n / 100 == n / 1000 * 10 + n / 100 % 10
  {
  }

  lemma FourInjective(a: int, b: int)
    requires 0 <= a <= 9999 && 0 <= b <= 9999 && Four(a) == Four(b)
    ensures a == b
  {
    assert Four(a)[0] == Four(b)[0] && Four(a)[1] == Four(b)[1] && Four(a)[2] == Four(b)[2] && Four(a)[3] == Four(b)[3];
    Tens(a);
    Tens(b);
  }

  lemma TwoInjective(a: int, b: int)
    requires Two(a) == Two(b)
    ensures a == b
  {
    assert Two(a)[0] == Two(b)[0] && Two(a)[1] == Two(b)[1];
  }

  /** The name of a partition tells the year, the month and the day or the half of the month, in digits. */
  lemma NameTells(g: Granularity, t: Date)
    requires Input(t)
    ensures
      var n := PartitionOf(g, t).name;
      && |n| == (match g case Yearly => 5 case Monthly => 8 case Halves => 11 case Daily => 11)
      && n[0] == 121 && (n[1] - 48) * 1000 + (n[2] - 48) * 100 + (n[3] - 48) * 10 + (n[4] - 48) == t.y
      && (!g.Yearly? ==> n[5] == 109 && (n[6] - 48) * 10 + (n[7] - 48) == t.m)
      && (g.Halves? ==> n[8] == 109 && n[9] == 119 && n[10] - 48 == if t.d <= 15 then 1 else 2)
      && (g.Daily? ==> n[8] == 100 && (n[9] - 48) * 10 + (n[10] - 48) == t.d)
      && forall i :: 1 <= i < 5 ==> 48 <= n[i] <= 57
  {
    DaysBounds(t.y, t.m);
    Tens(t.y);
  }

  /** Two dates get the same name exactly when they get the same range. */
  lemma NameIsRange(g: Granularity, t: Date, u: Date)
    requires Input(t) && Input(u)
    ensures var a, b := PartitionOf(g, t), PartitionOf(g, u);
            && (a.name == b.name <==> a.from == b.from && a.to == b.to)
            && (a.name == b.name <==> a == b)
  {
    var a, b := PartitionOf(g, t), PartitionOf(g, u);
    if a.name == b.name {
      assert Four(t.y) == a.name[1..5] && Four(u.y) == b.name[1..5];
      FourInjective(t.y, u.y);
      if g != Yearly {
        assert Two(t.m) == a.name[6..8] && Two(u.m) == b.name[6..8];
        TwoInjective(t.m, u.m);
      }
      if g == Halves {
        assert a.name[10] == b.name[10];
      }
      if g == Daily {
        assert Two(t.d) == a.name[9..11] && Two(u.d) == b.name[9..11];
        TwoInjective(t.d, u.d);
      }
    }
    RangeIsClass(g, t, u);
    RangeIsClass(g, t, t);
    hide PartitionOf;
  }

  /** Different names mean ranges without a common date. */
  lemma DifferentNamesDisjoint(g: Granularity, t: Date, u: Date, x: Date)
    requires Input(t) && Input(u) && Valid(x) && PartitionOf(g, t).name != PartitionOf(g, u).name
    ensures !(Within(x, PartitionOf(g, t)) && Within(x, PartitionOf(g, u)))
  {
    RangeIsClass(g, t, x);
    RangeIsClass(g, u, x);
    hide PartitionOf;
  }

  /** The next partition begins where this one ends. */
  lemma NoGaps(g: Granularity, t: Date)
    requires Valid(t)
    ensures PartitionOf(g, PartitionOf(g, t).to).from == PartitionOf(g, t).to
  {
    hide Four, Two;
    NextMonth(t.y, t.m);
    NextDay(t);
  }

  /** The two halves of a month are the month, leap February and December included. */
  lemma HalvesCoverMonth(y: int, m: int, x: Date)
    requires 1 <= m <= 12 && Valid(x)
    ensures var first, second, month :=
              PartitionOf(Halves, Date(y, m, 15)), PartitionOf(Halves, Date(y, m, 16)), PartitionOf(Monthly, Date(y, m, 1));
            && first.from == month.from && first.to == second.from && second.to == month.to
            && (Within(x, month) <==> Within(x, first) || Within(x, second))
            && !(Within(x, first) && Within(x, second))
  {
    hide Four, Two;
    NextMonth(y, m);
  }

  // ---------------------------------------------------------------- the list of partitions

  ghost predicate Asked(g: Granularity, ts: seq<Date>, p: Spec) {
    exists k :: 0 <= k < |ts| && PartitionOf(g, ts[k]) == p
  }

  /** Every input has exactly one partition in the list, every partition an input, no name comes twice. */
  ghost predicate Partitions(g: Granularity, ts: seq<Date>, ps: seq<Spec>) {
    && (forall k :: 0 <= k < |ts| ==> PartitionOf(g, ts[k]) in ps)
    && (forall i :: 0 <= i < |ps| ==> Asked(g, ts, ps[i]))
    && (forall i, j :: 0 <= i < j < |ps| ==> ps[i].name != ps[j].name)
  }

  function Names(ps: seq<Spec>): set<seq<int>> {
    set p | p in ps :: p.name
  }

  lemma AskedStill(g: Granularity, ts: seq<Date>, t: Date, ps: seq<Spec>)
    requires Partitions(g, ts, ps)
    ensures forall i :: 0 <= i < |ps| ==> Asked(g, ts + [t], ps[i])
    ensures Asked(g, ts + [t], PartitionOf(g, t))
  {
    hide PartitionOf;
    var us := ts + [t];
    assert us[|ts|] == t;
    forall i | 0 <= i < |ps| ensures Asked(g, us, ps[i]) {
      assert Asked(g, ts, ps[i]);
      var k :| 0 <= k < |ts| && PartitionOf(g, ts[k]) == ps[i];
      assert us[k] == ts[k];
    }
  }

  lemma NameMeansPartition(g: Granularity, ts: seq<Date>, t: Date, ps: seq<Spec>)
    requires (forall k :: 0 <= k < |ts| ==> Input(ts[k])) && Input(t) && Partitions(g, ts, ps)
    ensures PartitionOf(g, t).name in Names(ps) ==> PartitionOf(g, t) in ps
  {
    hide PartitionOf, Input;
    var p := PartitionOf(g, t);
    if p.name in Names(ps) {
      var q :| q in ps && q.name == p.name;
      var i :| 0 <= i < |ps| && ps[i] == q;
      assert Asked(g, ts, ps[i]);
      var k :| 0 <= k < |ts| && PartitionOf(g, ts[k]) == q;
      NameIsRange(g, ts[k], t);
    }
  }

  /** One more input: its partition is appended unless its name has been seen. */
  lemma OneMore(g: Granularity, ts: seq<Date>, t: Date, ps: seq<Spec>)
    requires (forall k :: 0 <= k < |ts| ==> Input(ts[k])) && Input(t) && Partitions(g, ts, ps)
    ensures var p := PartitionOf(g, t);
            && (p.name in Names(ps) ==> Partitions(g, ts + [t], ps))
            && (p.name !in Names(ps) ==> Partitions(g, ts + [t], ps + [p]))
            && Names(ps + [p]) == Names(ps) + {p.name}
  {
    hide PartitionOf, Input, Asked;
    var p, us := PartitionOf(g, t), ts + [t];
    AskedStill(g, ts, t, ps);
    NameMeansPartition(g, ts, t, ps);
    forall k | 0 <= k < |ts| ensures PartitionOf(g, us[k]) in ps {
      assert us[k] == ts[k];
    }
    assert us[|ts|] == t && (ps + [p])[|ps|] == p;
  }

  /** The loop over the BIDs with its map of names. */
  method TablePartitions(g: Granularity, ts: seq<Date>) returns (partitions: seq<Spec>)
    requires forall k :: 0 <= k < |ts| ==> Input(ts[k])
    ensures Partitions(g, ts, partitions)
  {
    assert Names([]) == {} && Partitions(g, [], []);
    hide PartitionOf, Input, Names, Partitions;
    partitions := [];
    var seen: set<seq<int>> := {};
    for k := 0 to |ts|
      invariant Partitions(g, ts[..k], partitions) && seen == Names(partitions)
    {
      assert ts[..k + 1] == ts[..k] + [ts[k]];
      OneMore(g, ts[..k], ts[k], partitions);
      var p := PartitionOf(g, ts[k]);
      if p.name !in seen {
        seen := seen + {p.name};
        partitions := partitions + [p];
      }
    }
    assert ts[..|ts|] == ts;
  }

  /** So each input lies in exactly one of the returned ranges. */
  lemma InExactlyOne(g: Granularity, ts: seq<Date>, ps: seq<Spec>, k: nat)
    requires (forall i :: 0 <= i < |ts| ==> Input(ts[i])) && Partitions(g, ts, ps) && k < |ts|
    ensures exists i :: 0 <= i < |ps| && Within(ts[k], ps[i])
    ensures forall i, j :: 0 <= i < |ps| && 0 <= j < |ps| && Within(ts[k], ps[i]) && Within(ts[k], ps[j]) ==> i == j
  {
    hide PartitionOf, Within;
    var t := ts[k];
    assert PartitionOf(g, t) in ps;
    var h :| 0 <= h < |ps| && ps[h] == PartitionOf(g, t);
    RangeIsClass(g, t, t);
    assert Within(t, ps[h]);
    forall i | 0 <= i < |ps| && Within(t, ps[i]) ensures i == h {
      assert Asked(g, ts, ps[i]);
      var j :| 0 <= j < |ts| && PartitionOf(g, ts[j]) == ps[i];
      RangeIsClass(g, ts[j], t);
    }
  }

  // ---------------------------------------------------------------- the partition key in SQL

  /** The seconds at the front of a BID, and what pgbid_get_utc_time makes of them: its shifts are done in
      four-byte integers. */
  function Seconds(b: seq<int>): int
    requires |b| >= 4
  {
    b[0] * 0x100_0000 + b[1] * 0x1_0000 + b[2] * 0x100 + b[3]
  }

  function Int4(n: int): int {
    var r := n % 0x1_0000_0000;
    if r >= 0x8000_0000 then r - 0x1_0000_0000 else r
  }

  function SqlSeconds(b: seq<int>): int
    requires |b| >= 4
  {
    Int4(Int4(b[0] * 0x100_0000) + Int4(b[1] * 0x1_0000) + Int4(b[2] * 0x100) + b[3])
  }

  /** The database and the program agree on the time of a BID exactly while its first byte is below 128,
      that is up to the year 2038. */
  lemma SameSecondsExactly(b: seq<int>)
    requires |b| >= 4 && forall k :: 0 <= k < 4 ==> 0 <= b[k] < 256
    ensures SqlSeconds(b) == Seconds(b) <==> b[0] < 128
  {
    var x, y, z, w := b[0], b[1], b[2], b[3];
    assert Int4(y * 0x1_0000) == y * 0x1_0000 && Int4(z * 0x100) == z * 0x100;
    var rest := y * 0x1_0000 + z * 0x100 + w;
    assert 0 <= rest < 0x100_0000;
    if x < 128 {
      assert Int4(x * 0x100_0000) == x * 0x100_0000;
    } else {
      assert Int4(x * 0x100_0000) == x * 0x100_0000 - 0x1_0000_0000;
      assert Int4(x * 0x100_0000 - 0x1_0000_0000 + rest) == x * 0x100_0000 - 0x1_0000_0000 + rest;
    }
  }
}
