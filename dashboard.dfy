/** The arithmetic of the dashboard routes: the attendance rates of
    `/stats`, `/attendance/stats` and `/summary`, the `/activities` feed, the
    date filter of `/attendance/stats` and the shaping of `/streams/stats`.
    Whatever the routes fetch from the database is an input sequence here. */
module Dashboard {
  import opened Js

  /** An attendance document as the routes read it. A number field that is
      absent or `null` is `None`. */
  datatype AttendanceRecord = AttendanceRecord(
    stream: Field,
    subject: Field,
    presentCount: Option<int>,
    studentsPresent: Option<seq<string>>,
    totalStudents: Option<int>,
    absentCount: Option<int>,
    createdAt: Option<int>)

  /** A student document, already projected to the fields the routes use;
      `createdAt` is a time in milliseconds. */
  datatype Student = Student(
    studentID: Field,
    name: Field,
    stream: Field,
    semester: Field,
    createdAt: Option<int>)

  // ---------------------------------------------------------------------------
  // Present counts and rates
  // ---------------------------------------------------------------------------

  /** `record.presentCount || record.studentsPresent?.length || 0`: a non-zero
      `presentCount` wins; otherwise the number of listed students counts. */
  function PresentOf(record: AttendanceRecord): (n: int)
    ensures record.presentCount.Some? && record.presentCount.value != 0 ==>
              n == record.presentCount.value
    ensures (record.presentCount.None? || record.presentCount.value == 0) ==>
              n >= 0 && (n == 0 <==> record.studentsPresent.None? || record.studentsPresent.value == [])
    ensures (record.presentCount.None? || record.presentCount.value == 0) && record.studentsPresent.Some? ==>
              n == |record.studentsPresent.value|
  {
    if record.presentCount.Some? && record.presentCount.value != 0 then record.presentCount.value
    else if record.studentsPresent.Some? then |record.studentsPresent.value|
    else 0
  }

  /** The present counts of `records` added up in order. */
  function SumPresent(records: seq<AttendanceRecord>): int {
    if records == [] then 0
    else SumPresent(records[..|records| - 1]) + PresentOf(records[|records| - 1])
  }

  /** `totalStudents || 0` added up over `records`. */
  function SumMarked(records: seq<AttendanceRecord>): int {
    if records == [] then 0
    else SumMarked(records[..|records| - 1]) + OrZero(records[|records| - 1].totalStudents)
  }

  /** `absentCount || 0` added up over `records`. */
  function SumAbsent(records: seq<AttendanceRecord>): int {
    if records == [] then 0
    else SumAbsent(records[..|records| - 1]) + OrZero(records[|records| - 1].absentCount)
  }

  /** `presentCount || 0` added up over `records`: the `/summary` route does not
      fall back to `studentsPresent`. */
  function SumPresentCount(records: seq<AttendanceRecord>): int {
    if records == [] then 0
    else SumPresentCount(records[..|records| - 1]) + OrZero(records[|records| - 1].presentCount)
  }

  /** A whole-number percentage in integer arithmetic: `Math.round(100 * part /
      whole)` when `whole` is positive, and 0 otherwise. */
  function RoundedPercent(part: int, whole: int): (r: int)
    ensures whole <= 0 ==> r == 0
    ensures whole > 0 ==> r == Round(part as real / whole as real * 100.0)
  {
    if whole > 0 then
      RoundedPercentIsRound(part, whole);
      (200 * part + whole) / (2 * whole)
    else 0
  }

  /** `(200p + m) div 2m` is `Math.round(100p / m)`. */
  lemma RoundedPercentIsRound(p: int, m: int)
    requires m > 0
    ensures (200 * p + m) / (2 * m) == Round(p as real / m as real * 100.0)
  {
    var q := (200 * p + m) / (2 * m);
    var rem := (200 * p + m) % (2 * m);
    assert 200 * p + m == 2 * m * q + rem && 0 <= rem < 2 * m;
    var y := p as real / m as real * 100.0 + 0.5;
    var d := (2 * m) as real;
    ShiftedTimesDouble(p, m);
    assert q * (2 * m) <= 200 * p + m < (q + 1) * (2 * m);
    assert q as real * d == (q * (2 * m)) as real;
    assert (q + 1) as real * d == ((q + 1) * (2 * m)) as real;
    ScaledBounds(y, d, q as real, (q + 1) as real);
  }

  /** `(100p/m + 1/2) * 2m` is `200p + m`. */
  lemma ShiftedTimesDouble(p: int, m: int)
    requires m > 0
    ensures (p as real / m as real * 100.0 + 0.5) * (2 * m) as real == (200 * p + m) as real
  {
    var f := p as real / m as real;
    var mr := m as real;
    assert f * mr == p as real;
    calc {
      (f * 100.0 + 0.5) * (2.0 * mr);
      200.0 * (f * mr) + mr;
      200.0 * p as real + mr;
    }
  }

  /** Dividing an inequality by a positive factor. */
  lemma ScaledBounds(y: real, d: real, lo: real, hi: real)
    requires d > 0.0 && lo * d <= y * d < hi * d
    ensures lo <= y < hi
  {
  }

  /** A rounded percentage of a part that does not exceed its whole lies
      between 0 and 100. */
  lemma RoundedPercentBounds(part: int, whole: int)
    requires 0 <= part <= whole
    ensures 0 <= RoundedPercent(part, whole) <= 100
  {
    if whole > 0 {
      RatioBounds(part, whole);
      var x := part as real / whole as real * 100.0;
      assert 0.0 <= x <= 100.0;
      assert RoundedPercent(part, whole) == Round(x);
    }
  }

  // ---------------------------------------------------------------------------
  // GET /stats
  // ---------------------------------------------------------------------------

  /** The body of `/stats` once its six queries have answered. */
  datatype Overview = Overview(
    totalStudents: int,
    activeStudents: int,
    inactiveStudents: int,
    totalStreams: int,
    totalSubjects: int,
    attendanceRate: int,
    recentStudents: seq<Student>)

  /** `/stats`: the attendance rate accumulated over `attendanceData`, and
      the counts and the first five `recentStudents` passed through. */
  method Stats(totalStudents: int, activeStudents: int, totalStreams: int, totalSubjects: int,
               recentStudents: seq<Student>, attendanceData: seq<AttendanceRecord>)
    returns (stats: Overview)
    ensures stats.attendanceRate == RoundedPercent(SumPresent(attendanceData), SumMarked(attendanceData))
    ensures attendanceData == [] ==> stats.attendanceRate == 0
    ensures stats.inactiveStudents + stats.activeStudents == stats.totalStudents == totalStudents
    ensures stats.activeStudents == activeStudents
    ensures stats.totalStreams == totalStreams && stats.totalSubjects == totalSubjects
    ensures |stats.recentStudents| == if |recentStudents| < 5 then |recentStudents| else 5
    ensures stats.recentStudents == recentStudents[..|stats.recentStudents|]
  {
    var attendanceRate := 0;
    var totalPresent := 0;
    var totalMarked := 0;
    if |attendanceData| > 0 {
      for i := 0 to |attendanceData|
        invariant totalPresent == SumPresent(attendanceData[..i])
        invariant totalMarked == SumMarked(attendanceData[..i])
      {
        var record := attendanceData[i];
        assert attendanceData[..i + 1][..i] == attendanceData[..i];
        var present := PresentOf(record);
        var total := OrZero(record.totalStudents);
        totalPresent := totalPresent + present;
        totalMarked := totalMarked + total;
      }
      assert attendanceData[..|attendanceData|] == attendanceData;
      attendanceRate := if totalMarked > 0 then Round(totalPresent as real / totalMarked as real * 100.0) else 0;
    }
    stats := Overview(totalStudents, activeStudents, totalStudents - activeStudents,
                      totalStreams, totalSubjects, attendanceRate, SliceTo(recentStudents, 5));
  }

  // ---------------------------------------------------------------------------
  // GET /attendance/stats
  // ---------------------------------------------------------------------------

  /** The totals of `/attendance/stats`. */
  datatype AttendanceTotals = AttendanceTotals(
    totalPresent: int,
    totalAbsent: int,
    totalRecords: int,
    attendanceRate: real)

  /** The accumulation of `/attendance/stats` over the fetched records. */
  method AttendanceStats(attendanceRecords: seq<AttendanceRecord>) returns (stats: AttendanceTotals)
    ensures stats.totalPresent == SumPresent(attendanceRecords)
    ensures stats.totalAbsent == SumAbsent(attendanceRecords)
    ensures stats.totalRecords == |attendanceRecords|
    ensures stats.attendanceRate == PercentOf(stats.totalPresent, stats.totalPresent + stats.totalAbsent)
  {
    var totalPresent := 0;
    var totalAbsent := 0;
    var totalRecords := |attendanceRecords|;
    for i := 0 to |attendanceRecords|
      invariant totalPresent == SumPresent(attendanceRecords[..i])
      invariant totalAbsent == SumAbsent(attendanceRecords[..i])
    {
      var record := attendanceRecords[i];
      assert attendanceRecords[..i + 1][..i] == attendanceRecords[..i];
      totalPresent := totalPresent + PresentOf(record);
      totalAbsent := totalAbsent + OrZero(record.absentCount);
    }
    assert attendanceRecords[..|attendanceRecords|] == attendanceRecords;
    var totalMarked := totalPresent + totalAbsent;
    var attendanceRate := if totalMarked > 0 then Round2(totalPresent as real / totalMarked as real * 100.0) else 0.0;
    stats := AttendanceTotals(totalPresent, totalAbsent, totalRecords, attendanceRate);
  }

  /** The date-range condition on the `date` field. */
  datatype DateRange = DateRange(gte: Option<string>, lte: Option<string>)

  /** The query document of `/attendance/stats`; `None` is an absent `date`
      key. */
  datatype AttendanceQuery = AttendanceQuery(date: Option<DateRange>)

  /** Builds the query key by key from the `startDate` and `endDate`
      parameters. */
  method BuildDateFilter(startDate: Field, endDate: Field) returns (query: AttendanceQuery)
    ensures query.date.Some? <==> startDate.Truthy() || endDate.Truthy()
    ensures query.date.Some? ==>
              (query.date.value.gte.Some? <==> startDate.Truthy()) &&
              (query.date.value.lte.Some? <==> endDate.Truthy())
    ensures query.date.Some? && query.date.value.gte.Some? ==> query.date.value.gte.value == startDate.s
    ensures query.date.Some? && query.date.value.lte.Some? ==> query.date.value.lte.value == endDate.s
  {
    query := AttendanceQuery(None);
    if startDate.Truthy() || endDate.Truthy() {
      var date := DateRange(None, None);
      if startDate.Truthy() {
        date := date.(gte := Some(startDate.s));
      }
      if endDate.Truthy() {
        date := date.(lte := Some(endDate.s));
      }
      query := query.(date := Some(date));
    }
  }

  // ---------------------------------------------------------------------------
  // GET /summary
  // ---------------------------------------------------------------------------

  /** The `/summary` rate over the recent records: `presentCount || 0` over
      `totalStudents || 0`, rounded to a whole percent. */
  function SummaryRate(recentAttendance: seq<AttendanceRecord>): (r: int)
    ensures r == RoundedPercent(SumPresentCount(recentAttendance), SumMarked(recentAttendance))
  {
    if |recentAttendance| > 0 then
      var totalPresent := SumPresentCount(recentAttendance);
      var totalMarked := SumMarked(recentAttendance);
      if totalMarked > 0 then Round(totalPresent as real / totalMarked as real * 100.0) else 0
    else 0
  }

  /** Only `presentCount` and `totalStudents` reach the summary rate: two
      lists of records that agree on those fields have the same rate, however
      their `studentsPresent` lists differ. */
  lemma {:induction false} SummaryIgnoresStudentsPresent(a: seq<AttendanceRecord>, b: seq<AttendanceRecord>)
    requires |a| == |b|
    requires forall i :: 0 <= i < |a| ==>
               a[i].presentCount == b[i].presentCount && a[i].totalStudents == b[i].totalStudents
    ensures SumPresentCount(a) == SumPresentCount(b) && SumMarked(a) == SumMarked(b)
    ensures SummaryRate(a) == SummaryRate(b)
  {
    if a != [] {
      var n := |a| - 1;
      SummaryIgnoresStudentsPresent(a[..n], b[..n]);
    }
  }

  /** When no record needs the `studentsPresent` fallback, `/summary` and
      `/stats` compute the same rate over the same records. */
  lemma {:induction false} SummaryAgreesWithStats(records: seq<AttendanceRecord>)
    requires forall i :: 0 <= i < |records| ==> PresentOf(records[i]) == OrZero(records[i].presentCount)
    ensures SumPresentCount(records) == SumPresent(records)
    ensures SummaryRate(records) == RoundedPercent(SumPresent(records), SumMarked(records))
  {
    if records != [] {
      SummaryAgreesWithStats(records[..|records| - 1]);
    }
  }

  /** A record that lists its present students without a `presentCount`
      counts for `/stats` but not for `/summary`. */
  lemma SummaryMissesStudentsPresent()
    ensures
      var records := [AttendanceRecord(Str("BCA"), Str("Maths"), None, Some(["a", "b"]), Some(4), None, None)];
      RoundedPercent(SumPresent(records), SumMarked(records)) == 50 && SummaryRate(records) == 0
  {
    var records := [AttendanceRecord(Str("BCA"), Str("Maths"), None, Some(["a", "b"]), Some(4), None, None)];
    assert records[..0] == [];
    assert SumPresent(records) == 2;
    assert SumPresentCount(records) == 0;
  }

  // ---------------------------------------------------------------------------
  // GET /activities
  // ---------------------------------------------------------------------------

  datatype ActivityType = StudentRegistered | AttendanceMarked
  datatype Badge = New | Completed

  /** One entry of the activity feed; `timestamp` is in milliseconds. */
  datatype Activity = Activity(
    kind: ActivityType,
    title: string,
    description: string,
    timestamp: int,
    badge: Badge,
    avatar: string)

  /** The `limit` query parameter: `parseInt(limit) || 10`, so a missing,
      unparsable or zero limit becomes 10. */
  function ActivityLimit(limit: Field): (n: int)
    ensures n != 0
    ensures ParseInt(limit.Text()).Some? && ParseInt(limit.Text()).value != 0 ==>
              n == ParseInt(limit.Text()).value
    ensures ParseInt(limit.Text()).None? ==> n == 10
    ensures ParseInt(limit.Text()) == Some(0) ==> n == 10
  {
    var parsed := ParseInt(limit.Text());
    if parsed.Some? && parsed.value != 0 then parsed.value else 10
  }

  /** `student.name?.substring(0, 2).toUpperCase() || 'ST'`. */
  function Avatar(name: Field): (r: string)
    ensures !name.Truthy() ==> r == "ST"
    ensures name.Truthy() ==>
              |r| == (if |name.s| < 2 then |name.s| else 2) &&
              forall i :: 0 <= i < |r| ==> r[i] == UpperChar(name.s[i])
  {
    if name.Truthy() then ToUpper(name.s[..if |name.s| < 2 then |name.s| else 2]) else "ST"
  }

  /** The feed entry for a registered student. */
  function StudentActivity(student: Student, now: int): Activity {
    Activity(StudentRegistered,
             student.name.Text() + " registered",
             student.stream.Text() + " - Semester " + student.semester.Text(),
             if student.createdAt.Some? then student.createdAt.value else now,
             New,
             Avatar(student.name))
  }

  /** The feed entry for a marked attendance record. */
  function AttendanceActivity(record: AttendanceRecord, now: int): Activity {
    Activity(AttendanceMarked,
             "Attendance marked",
             record.stream.OrElse("N/A") + " - " + record.subject.OrElse("N/A"),
             if record.createdAt.Some? then record.createdAt.value else now,
             Completed,
             "AT")
  }

  function StudentActivities(students: seq<Student>, now: int): (r: seq<Activity>)
    ensures |r| == |students|
    ensures forall i :: 0 <= i < |r| ==> r[i] == StudentActivity(students[i], now)
  {
    if students == [] then []
    else [StudentActivity(students[0], now)] + StudentActivities(students[1..], now)
  }

  function AttendanceActivities(records: seq<AttendanceRecord>, now: int): (r: seq<Activity>)
    ensures |r| == |records|
    ensures forall i :: 0 <= i < |r| ==> r[i] == AttendanceActivity(records[i], now)
  {
    if records == [] then []
    else [AttendanceActivity(records[0], now)] + AttendanceActivities(records[1..], now)
  }

  /** Newest first: no entry is older than the one after it. */
  predicate NewestFirst(a: seq<Activity>) {
    forall i :: 0 <= i < |a| - 1 ==> a[i].timestamp >= a[i + 1].timestamp
  }

  /** Inserts `x` into a newest-first list after every entry that is not older
      than it, so entries with equal timestamps keep their order. */
  function InsertByTime(x: Activity, s: seq<Activity>): (r: seq<Activity>)
    ensures |r| == |s| + 1
    ensures r[0] == x || (s != [] && r[0] == s[0])
  {
    if s == [] || x.timestamp > s[0].timestamp then [x] + s
    else [s[0]] + InsertByTime(x, s[1..])
  }

  lemma {:induction false} InsertByTimePermutes(x: Activity, s: seq<Activity>)
    ensures multiset(InsertByTime(x, s)) == multiset(s) + multiset{x}
  {
    if s != [] && x.timestamp <= s[0].timestamp {
      var rest := InsertByTime(x, s[1..]);
      InsertByTimePermutes(x, s[1..]);
      assert InsertByTime(x, s) == [s[0]] + rest;
      assert s == [s[0]] + s[1..];
    } else {
      assert InsertByTime(x, s) == [x] + s;
    }
  }

  lemma {:induction false} InsertByTimeSorted(x: Activity, s: seq<Activity>)
    requires NewestFirst(s)
    ensures NewestFirst(InsertByTime(x, s))
  {
    if s != [] && x.timestamp <= s[0].timestamp {
      InsertByTimeSorted(x, s[1..]);
    }
  }

  /** `activities.sort((a, b) => b.timestamp - a.timestamp)`: a stable
      insertion sort, newest first. */
  function SortByTime(a: seq<Activity>): (r: seq<Activity>)
    ensures |r| == |a|
  {
    if a == [] then [] else InsertByTime(a[|a| - 1], SortByTime(a[..|a| - 1]))
  }

  /** The sorted feed is newest first and holds exactly the entries it was
      given. */
  lemma {:induction false} SortByTimeSortsAndPermutes(a: seq<Activity>)
    ensures NewestFirst(SortByTime(a))
    ensures multiset(SortByTime(a)) == multiset(a)
  {
    SortByTimeSorts(a);
    SortByTimePermutes(a);
  }

  lemma {:induction false} SortByTimeSorts(a: seq<Activity>)
    ensures NewestFirst(SortByTime(a))
  {
    if a != [] {
      var init := a[..|a| - 1];
      SortByTimeSorts(init);
      InsertByTimeSorted(a[|a| - 1], SortByTime(init));
    }
  }

  lemma {:induction false} SortByTimePermutes(a: seq<Activity>)
    ensures multiset(SortByTime(a)) == multiset(a)
  {
    if a != [] {
      var init := a[..|a| - 1];
      SortByTimePermutes(init);
      InsertByTimePermutes(a[|a| - 1], SortByTime(init));
      assert a == init + [a[|a| - 1]];
    }
  }

  /** The `/activities` response. */
  datatype ActivityFeed = ActivityFeed(activities: seq<Activity>, count: int)

  /** The student entries followed by the attendance entries. */
  function Merged(recentStudents: seq<Student>, recentAttendance: seq<AttendanceRecord>, now: int): (all: seq<Activity>)
    ensures |all| == |recentStudents| + |recentAttendance|
    ensures forall i :: 0 <= i < |recentStudents| ==> all[i] == StudentActivity(recentStudents[i], now)
    ensures forall i :: 0 <= i < |recentAttendance| ==>
              all[|recentStudents| + i] == AttendanceActivity(recentAttendance[i], now)
  {
    StudentActivities(recentStudents, now) + AttendanceActivities(recentAttendance, now)
  }

  /** `/activities`: the merged entries sorted newest first and cut to
      `limit`. */
  function Activities(recentStudents: seq<Student>, recentAttendance: seq<AttendanceRecord>,
                      limit: Field, now: int): (feed: ActivityFeed)
    ensures |feed.activities| <= |recentStudents| + |recentAttendance|
    ensures NewestFirst(feed.activities)
    ensures multiset(feed.activities) <= multiset(Merged(recentStudents, recentAttendance, now))
    ensures feed.activities == SortByTime(Merged(recentStudents, recentAttendance, now))[..|feed.activities|]
    ensures ActivityLimit(limit) >= 0 ==>
              |feed.activities| == Min(ActivityLimit(limit), |recentStudents| + |recentAttendance|)
    ensures feed.count == |feed.activities|
  {
    var all := Merged(recentStudents, recentAttendance, now);
    var sorted := SortByTime(all);
    var activities := SliceTo(sorted, ActivityLimit(limit));
    SortByTimeSortsAndPermutes(all);
    PrefixOfSorted(sorted, |activities|);
    ActivityFeed(activities, |activities|)
  }

  function Min(a: int, b: int): int { if a < b then a else b }

  /** A prefix of a newest-first list is newest first and is part of it. */
  lemma PrefixOfSorted(s: seq<Activity>, k: nat)
    requires k <= |s| && NewestFirst(s)
    ensures NewestFirst(s[..k])
    ensures multiset(s[..k]) <= multiset(s)
  {
    assert s == s[..k] + s[k..];
  }

  // ---------------------------------------------------------------------------
  // GET /streams/stats
  // ---------------------------------------------------------------------------

  /** One group of the `/streams/stats` aggregation: a stream, its number of
      active students and the set of their semesters, in no given order. */
  datatype StreamGroup = StreamGroup(id: Field, totalStudents: int, semesters: seq<int>)

  datatype StreamStat = StreamStat(stream: Field, totalStudents: int, semesterCount: int, semesters: seq<int>)

  /** JavaScript's string comparison `a <= b`, code unit by code unit. */
  predicate TextLe(a: string, b: string) {
    a == [] || (b != [] && (a[0] < b[0] || (a[0] == b[0] && TextLe(a[1..], b[1..]))))
  }

  lemma {:induction false} TextLeTotal(a: string, b: string)
    ensures TextLe(a, b) || TextLe(b, a)
  {
    if a != [] && b != [] && a[0] == b[0] {
      TextLeTotal(a[1..], b[1..]);
    }
  }

  /** Ordered as `Array.prototype.sort` orders numbers without a comparator:
      by their decimal text. */
  predicate SortedAsText(s: seq<int>) {
    forall i :: 0 <= i < |s| - 1 ==> TextLe(IntToString(s[i]), IntToString(s[i + 1]))
  }

  function InsertAsText(x: int, s: seq<int>): (r: seq<int>)
    ensures |r| == |s| + 1
    ensures r[0] == x || (s != [] && r[0] == s[0])
  {
    if s == [] || TextLe(IntToString(x), IntToString(s[0])) then [x] + s
    else [s[0]] + InsertAsText(x, s[1..])
  }

  lemma {:induction false} InsertAsTextPermutes(x: int, s: seq<int>)
    ensures multiset(InsertAsText(x, s)) == multiset(s) + multiset{x}
  {
    if s != [] && !TextLe(IntToString(x), IntToString(s[0])) {
      var rest := InsertAsText(x, s[1..]);
      InsertAsTextPermutes(x, s[1..]);
      assert InsertAsText(x, s) == [s[0]] + rest;
      assert s == [s[0]] + s[1..];
    } else {
      assert InsertAsText(x, s) == [x] + s;
    }
  }

  lemma {:induction false} InsertAsTextSorted(x: int, s: seq<int>)
    requires SortedAsText(s)
    ensures SortedAsText(InsertAsText(x, s))
  {
    if s != [] && !TextLe(IntToString(x), IntToString(s[0])) {
      TextLeTotal(IntToString(x), IntToString(s[0]));
      InsertAsTextSorted(x, s[1..]);
    }
  }

  /** `semesters.sort()`. */
  function SortAsText(s: seq<int>): (r: seq<int>)
    ensures |r| == |s|
  {
    if s == [] then [] else InsertAsText(s[|s| - 1], SortAsText(s[..|s| - 1]))
  }

  /** The sorted semesters are in text order and are the semesters given. */
  lemma {:induction false} SortAsTextSortsAndPermutes(s: seq<int>)
    ensures SortedAsText(SortAsText(s))
    ensures multiset(SortAsText(s)) == multiset(s)
  {
    SortAsTextSorts(s);
    SortAsTextPermutes(s);
  }

  lemma {:induction false} SortAsTextSorts(s: seq<int>)
    ensures SortedAsText(SortAsText(s))
  {
    if s != [] {
      var init := s[..|s| - 1];
      SortAsTextSorts(init);
      InsertAsTextSorted(s[|s| - 1], SortAsText(init));
    }
  }

  lemma {:induction false} SortAsTextPermutes(s: seq<int>)
    ensures multiset(SortAsText(s)) == multiset(s)
  {
    if s != [] {
      var init := s[..|s| - 1];
      SortAsTextPermutes(init);
      InsertAsTextPermutes(s[|s| - 1], SortAsText(init));
      assert s == init + [s[|s| - 1]];
    }
  }

  /** The shaping of one aggregation group. */
  function FormatStreamStat(group: StreamGroup): (stat: StreamStat)
    ensures stat.stream == group.id && stat.totalStudents == group.totalStudents
    ensures stat.semesterCount == |group.semesters| == |stat.semesters|
    ensures multiset(stat.semesters) == multiset(group.semesters)
    ensures SortedAsText(stat.semesters)
  {
    SortAsTextSortsAndPermutes(group.semesters);
    StreamStat(group.id, group.totalStudents, |group.semesters|, SortAsText(group.semesters))
  }

  /** `/streams/stats`: every group shaped, in the aggregation's order. */
  function FormatStreamStats(groups: seq<StreamGroup>): (stats: seq<StreamStat>)
    ensures |stats| == |groups|
    ensures forall i :: 0 <= i < |stats| ==> stats[i] == FormatStreamStat(groups[i])
  {
    if groups == [] then [] else [FormatStreamStat(groups[0])] + FormatStreamStats(groups[1..])
  }

  /** For single-digit semesters the text order is the numeric order. */
  lemma SingleDigitSemesters(a: int, b: int)
    requires 0 <= a < 10 && 0 <= b < 10
    ensures TextLe(IntToString(a), IntToString(b)) <==> a <= b
  {
    assert IntToString(a) == [DigitChar(a)];
    assert IntToString(b) == [DigitChar(b)];
  }

  /** Semesters of two digits sort as text: 10 comes before 2. */
  lemma TwoDigitSemestersSortAsText()
    ensures FormatStreamStat(StreamGroup(Str("BCA"), 2, [2, 10])).semesters == [10, 2]
  {
    assert NatToString(10) == NatToString(1) + [DigitChar(0)];
    assert IntToString(10) == ['1', '0'];
    assert IntToString(2) == ['2'];
    assert TextLe(IntToString(10), IntToString(2));
    assert [2, 10][..1] == [2];
    assert [2][..0] == [];
    assert SortAsText([2]) == InsertAsText(2, []) == [2];
    assert InsertAsText(10, [2]) == [10, 2];
  }
}
