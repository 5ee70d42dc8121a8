/** The attendance-report formatter of the chat route: it turns the
    per-subject attendance rows of one student into a report with overall
    totals, a per-subject breakdown tagged at the 75% threshold, and either a
    shortage alert (with the classes still needed per subject) or a
    congratulatory note. The report is kept as a sequence of structured lines;
    their markdown text is not rendered here. */
module AttendanceReport {
  import opened Js

  /** One row of the per-subject aggregation for a student. The identity
      fields hold the text the report prints for them; a count or percentage
      that the row lacks is `None`. */
  datatype SubjectRow = SubjectRow(
    studentName: string,
    studentID: string,
    stream: string,
    semester: string,
    subject: string,
    totalClasses: Option<int>,
    classesAttended: Option<int>,
    classesAbsent: Option<int>,
    attendancePercentage: Option<real>)

  /** The attendance policy threshold, in percent. */
  const Threshold: real := 75.0

  datatype Status = OK | LOW

  datatype Line =
    | NoData                     // "No attendance data found for this student."
    | Title(studentName: string)
    | StudentId(studentID: string)
    | Cohort(stream: string, semester: string)
    | SummaryHeading
    | TotalClasses(total: int)
    | ClassesAttended(attended: int)
    | ClassesAbsent(absent: int)
    | OverallPercentage(percentage: real)
    | BreakdownHeading           // the heading and the two header rows of the table
    | Breakdown(subject: string, attended: int, total: int, absent: int, percentage: real, status: Status)
    | ShortageHeading
    | Shortage(subject: string, percentage: real, needed: Option<int>, unit: string)
    | Excellent

  /** What the formatter produces: the report, or the `TypeError` it throws
      when a shortage row has no `attendancePercentage` to call `toFixed` on. */
  datatype ReportResult = Rendered(lines: seq<Line>) | PercentageTypeError

  /** The message of that `TypeError`. */
  const ToFixedTypeErrorMessage: string := "Cannot read properties of undefined (reading 'toFixed')"

  /** `x || 0` for a percentage. */
  function PercentOrZero(x: Option<real>): real {
    if x.Some? then x.value else 0.0
  }

  /** `data.reduce((sum, s) => sum + (s.totalClasses || 0), 0)`. */
  function TotalClassesAll(data: seq<SubjectRow>): int {
    if data == [] then 0
    else TotalClassesAll(data[..|data| - 1]) + OrZero(data[|data| - 1].totalClasses)
  }

  /** `data.reduce((sum, s) => sum + (s.classesAttended || 0), 0)`. */
  function AttendedAll(data: seq<SubjectRow>): int {
    if data == [] then 0
    else AttendedAll(data[..|data| - 1]) + OrZero(data[|data| - 1].classesAttended)
  }

  /** The reductions are sums: they split over concatenation, so the order in
      which the rows are folded does not matter. */
  lemma {:induction false} TotalsSplit(a: seq<SubjectRow>, b: seq<SubjectRow>)
    ensures TotalClassesAll(a + b) == TotalClassesAll(a) + TotalClassesAll(b)
    ensures AttendedAll(a + b) == AttendedAll(a) + AttendedAll(b)
    decreases |b|
  {
    if b == [] {
      assert a + b == a;
    } else {
      var b' := b[..|b| - 1];
      TotalsSplit(a, b');
      assert (a + b)[..|a + b| - 1] == a + b';
    }
  }

  /** The breakdown tag. The source compares the two-decimal text of the
      percentage with 75, so the tag is decided on the rounded value. */
  function StatusOf(percentage: real): (s: Status)
    ensures s == OK <==> Round2(percentage) >= Threshold
  {
    if Round2(percentage) >= Threshold then OK else LOW
  }

  /** A row belongs to the shortage alert when its raw percentage (0 when
      absent) is below 75. */
  predicate InShortage(row: SubjectRow) {
    PercentOrZero(row.attendancePercentage) < Threshold
  }

  /** `data.filter(s => (s.attendancePercentage || 0) < 75)`. */
  function ShortageRows(data: seq<SubjectRow>): (r: seq<SubjectRow>)
    ensures |r| <= |data|
  {
    if data == [] then []
    else
      var last := data[|data| - 1];
      ShortageRows(data[..|data| - 1]) + (if InShortage(last) then [last] else [])
  }

  /** A row is in the shortage list exactly when it is one of the rows and
      its percentage is below 75. */
  lemma {:induction false} ShortageRowsMembers(data: seq<SubjectRow>)
    ensures forall x :: x in ShortageRows(data) <==> x in data && InShortage(x)
    decreases |data|
  {
    if data != [] {
      var init := data[..|data| - 1];
      ShortageRowsMembers(init);
      assert data == init + [data[|data| - 1]];
    }
  }

  /** The shortage list keeps the input order: filtering a concatenation is
      the concatenation of the filtered parts. */
  lemma {:induction false} ShortageRowsSplit(a: seq<SubjectRow>, b: seq<SubjectRow>)
    ensures ShortageRows(a + b) == ShortageRows(a) + ShortageRows(b)
    decreases |b|
  {
    if b == [] {
      assert a + b == a;
    } else {
      var b' := b[..|b| - 1];
      ShortageRowsSplit(a, b');
      var last := b[|b| - 1];
      assert (a + b)[..|a + b| - 1] == a + b';
      assert (a + b)[|a + b| - 1] == last;
      var tail := if InShortage(last) then [last] else [];
      assert ShortageRows(a + b) == ShortageRows(a + b') + tail;
      assert ShortageRows(b) == ShortageRows(b') + tail;
    }
  }

  /** After `k` more classes, all attended, the attendance `(A + k) / (T + k)`
      is at least 75%, stated without division. */
  predicate Reaches(attended: int, total: int, k: int) {
    4 * (attended + k) >= 3 * (total + k)
  }

  /** `Math.max(0, Math.ceil((75 * T - 100 * A) / 25))`, or `NaN` (`None`)
      when the row lacks either count. It is the least number of further
      classes, all attended, that bring the row to at least 75%. */
  function ClassesNeeded(total: Option<int>, attended: Option<int>): (r: Option<int>)
    ensures r.Some? <==> total.Some? && attended.Some?
    ensures r.Some? ==> r.value == (if 3 * total.value - 4 * attended.value > 0
                                    then 3 * total.value - 4 * attended.value else 0)
  {
    if total.Some? && attended.Some? then
      var c := Ceil((75 * total.value - 100 * attended.value) as real / 25.0);
      assert (75 * total.value - 100 * attended.value) as real / 25.0
             == (3 * total.value - 4 * attended.value) as real;
      Some(if 0 > c then 0 else c)
    else None
  }

  /** The number of classes needed is the least `k >= 0` after which
      attending `k` more classes brings the row to 75%. */
  lemma ClassesNeededIsLeast(total: int, attended: int)
    ensures var r := ClassesNeeded(Some(total), Some(attended));
            r.Some? && r.value >= 0 && Reaches(attended, total, r.value) &&
            forall k :: 0 <= k < r.value ==> !Reaches(attended, total, k)
  {
  }

  /** "class" for exactly one, "classes" otherwise. */
  function ClassUnit(needed: Option<int>): (u: string)
    ensures u == "class" <==> needed == Some(1)
  {
    if needed == Some(1) then "class" else "classes"
  }

  function BreakdownLine(row: SubjectRow): Line {
    var p := PercentOrZero(row.attendancePercentage);
    Breakdown(row.subject, OrZero(row.classesAttended), OrZero(row.totalClasses),
              OrZero(row.classesAbsent), Round2(p), StatusOf(p))
  }

  /** One breakdown line per row, in order. */
  function BreakdownLines(data: seq<SubjectRow>): (r: seq<Line>)
    ensures |r| == |data|
  {
    if data == [] then []
    else BreakdownLines(data[..|data| - 1]) + [BreakdownLine(data[|data| - 1])]
  }

  /** The `k`-th table line is the line of the `k`-th row. */
  lemma {:induction false} BreakdownLinesAt(data: seq<SubjectRow>)
    ensures forall k :: 0 <= k < |data| ==> BreakdownLines(data)[k] == BreakdownLine(data[k])
    decreases |data|
  {
    if data != [] {
      var init := data[..|data| - 1];
      BreakdownLinesAt(init);
      assert forall k :: 0 <= k < |init| ==> data[k] == init[k];
    }
  }

  predicate HasPercentage(row: SubjectRow) {
    row.attendancePercentage.Some?
  }

  predicate AllHavePercentage(rows: seq<SubjectRow>) {
    forall k :: 0 <= k < |rows| ==> HasPercentage(rows[k])
  }

  function ShortageLine(row: SubjectRow): Line
    requires HasPercentage(row)
  {
    var needed := ClassesNeeded(row.totalClasses, row.classesAttended);
    Shortage(row.subject, Round2(row.attendancePercentage.value), needed, ClassUnit(needed))
  }

  /** One alert line per shortage row, in order. */
  function ShortageLines(rows: seq<SubjectRow>): (r: seq<Line>)
    requires AllHavePercentage(rows)
    ensures |r| == |rows|
  {
    if rows == [] then []
    else ShortageLines(rows[..|rows| - 1]) + [ShortageLine(rows[|rows| - 1])]
  }

  /** The `k`-th alert line is the line of the `k`-th shortage row. */
  lemma {:induction false} ShortageLinesAt(rows: seq<SubjectRow>)
    requires AllHavePercentage(rows)
    ensures forall k :: 0 <= k < |rows| ==> ShortageLines(rows)[k] == ShortageLine(rows[k])
    decreases |rows|
  {
    if rows != [] {
      var init := rows[..|rows| - 1];
      assert forall k :: 0 <= k < |init| ==> rows[k] == init[k];
      ShortageLinesAt(init);
    }
  }

  /** Title, identity, overall summary and the table heading. */
  function Header(data: seq<SubjectRow>): seq<Line>
    requires data != []
  {
    var total := TotalClassesAll(data);
    var attended := AttendedAll(data);
    [Title(data[0].studentName), StudentId(data[0].studentID), Cohort(data[0].stream, data[0].semester),
     SummaryHeading, TotalClasses(total), ClassesAttended(attended), ClassesAbsent(total - attended),
     OverallPercentage(PercentOf(attended, total)), BreakdownHeading]
  }

  /** The whole report, as `formatAttendanceReport` builds it. */
  function Report(data: seq<SubjectRow>): ReportResult {
    if data == [] then Rendered([NoData])
    else
      var body := Header(data) + BreakdownLines(data);
      var shortage := ShortageRows(data);
      if shortage != [] then
        if AllHavePercentage(shortage) then Rendered(body + [ShortageHeading] + ShortageLines(shortage))
        else PercentageTypeError
      else if TotalClassesAll(data) > 0 then Rendered(body + [Excellent])
      else Rendered(body)
  }

  /** The two reductions of the report: total classes and classes attended
      over all rows, a missing count read as 0. */
  method SumTotals(data: seq<SubjectRow>) returns (totalClassesAll: int, totalAttendedAll: int)
    ensures totalClassesAll == TotalClassesAll(data)
    ensures totalAttendedAll == AttendedAll(data)
  {
    totalClassesAll, totalAttendedAll := 0, 0;
    var i := 0;
    while i < |data|
      invariant 0 <= i <= |data|
      invariant totalClassesAll == TotalClassesAll(data[..i])
      invariant totalAttendedAll == AttendedAll(data[..i])
    {
      assert data[..i + 1][..i] == data[..i];
      totalClassesAll := totalClassesAll + OrZero(data[i].totalClasses);
      totalAttendedAll := totalAttendedAll + OrZero(data[i].classesAttended);
      i := i + 1;
    }
    assert data[..|data|] == data;
  }

  /** The breakdown `forEach`: one table line per row, appended in order. */
  method AppendBreakdown(response: seq<Line>, data: seq<SubjectRow>) returns (out: seq<Line>)
    ensures out == response + BreakdownLines(data)
  {
    out := response;
    var i := 0;
    while i < |data|
      invariant 0 <= i <= |data|
      invariant out == response + BreakdownLines(data[..i])
    {
      BreakdownLinesStep(data, i);
      var p := PercentOrZero(data[i].attendancePercentage);
      var percentage := Round2(p);
      var status := if percentage >= Threshold then OK else LOW;
      var line := Breakdown(data[i].subject, OrZero(data[i].classesAttended),
                            OrZero(data[i].totalClasses), OrZero(data[i].classesAbsent),
                            percentage, status);
      assert line == BreakdownLine(data[i]);
      out := out + [line];
      i := i + 1;
    }
    assert data[..|data|] == data;
  }

  /** One more row of the prefix: its table line follows the earlier ones. */
  lemma BreakdownLinesStep(data: seq<SubjectRow>, i: nat)
    requires i < |data|
    ensures BreakdownLines(data[..i + 1]) == BreakdownLines(data[..i]) + [BreakdownLine(data[i])]
  {
    var next := data[..i + 1];
    assert next[..|next| - 1] == data[..i] && next[|next| - 1] == data[i];
  }

  /** The shortage `forEach`: one alert line per shortage row, appended in
      order, until a row without a percentage makes `toFixed` throw. */
  method AppendShortage(response: seq<Line>, rows: seq<SubjectRow>) returns (r: ReportResult)
    ensures AllHavePercentage(rows) ==> r == Rendered(response + ShortageLines(rows))
    ensures !AllHavePercentage(rows) ==> r == PercentageTypeError
  {
    var out := response;
    var i := 0;
    while i < |rows|
      invariant 0 <= i <= |rows|
      invariant AllHavePercentage(rows[..i])
      invariant out == response + ShortageLines(rows[..i])
    {
      var s := rows[i];
      if s.attendancePercentage.None? {
        assert !HasPercentage(rows[i]);
        return PercentageTypeError;
      }
      ShortageLinesStep(rows, i);
      var classesNeeded := ClassesNeeded(s.totalClasses, s.classesAttended);
      var line := Shortage(s.subject, Round2(s.attendancePercentage.value),
                           classesNeeded, ClassUnit(classesNeeded));
      assert line == ShortageLine(s);
      out := out + [line];
      i := i + 1;
    }
    assert rows[..|rows|] == rows;
    return Rendered(out);
  }

  /** One more row of the prefix: it has a percentage, so the prefix still
      does, and its alert line follows the earlier ones. */
  lemma ShortageLinesStep(rows: seq<SubjectRow>, i: nat)
    requires i < |rows| && AllHavePercentage(rows[..i]) && HasPercentage(rows[i])
    ensures AllHavePercentage(rows[..i + 1])
    ensures ShortageLines(rows[..i + 1]) == ShortageLines(rows[..i]) + [ShortageLine(rows[i])]
  {
    var next := rows[..i + 1];
    assert next[..i] == rows[..i] && next[i] == rows[i];
    assert next[..|next| - 1] == rows[..i];
  }

  /** `formatAttendanceReport(data)`: the header and the summary totals, one
      table line per row, then the shortage alert or the congratulatory note. */
  method FormatAttendanceReport(data: seq<SubjectRow>) returns (r: ReportResult)
    ensures r == Report(data)
  {
    if |data| == 0 {
      return Rendered([NoData]);
    }
    var student := data[0];
    var response := [Title(student.studentName), StudentId(student.studentID),
                     Cohort(student.stream, student.semester)];

    var totalClassesAll, totalAttendedAll := SumTotals(data);
    var overallPercentage := if totalClassesAll > 0
      then Round2(totalAttendedAll as real / totalClassesAll as real * 100.0) else 0.0;

    response := response + [SummaryHeading, TotalClasses(totalClassesAll),
                            ClassesAttended(totalAttendedAll),
                            ClassesAbsent(totalClassesAll - totalAttendedAll),
                            OverallPercentage(overallPercentage), BreakdownHeading];
    assert response == Header(data);
    response := AppendBreakdown(response, data);

    var shortageSubjects := ShortageRows(data);
    if |shortageSubjects| > 0 {
      r := AppendShortage(response + [ShortageHeading], shortageSubjects);
    } else if totalClassesAll > 0 {
      r := Rendered(response + [Excellent]);
    } else {
      r := Rendered(response);
    }
  }

  // ---------------------------------------------------------------------------
  // Properties of the report
  // ---------------------------------------------------------------------------

  /** A row without an `attendancePercentage` always counts as a shortage
      (it reads as 0), so the formatter throws exactly when some row lacks
      the field. */
  lemma CrashIffMissingPercentage(data: seq<SubjectRow>)
    ensures Report(data) == PercentageTypeError <==>
            exists k :: 0 <= k < |data| && !HasPercentage(data[k])
  {
    var shortage := ShortageRows(data);
    ShortageRowsMembers(data);
    if exists k :: 0 <= k < |data| && !HasPercentage(data[k]) {
      var k :| 0 <= k < |data| && !HasPercentage(data[k]);
      assert data[k] in shortage;
      var j :| 0 <= j < |shortage| && shortage[j] == data[k];
      assert !AllHavePercentage(shortage);
    } else if Report(data) == PercentageTypeError {
      var j :| 0 <= j < |shortage| && !HasPercentage(shortage[j]);
      assert shortage[j] in data;
    }
  }

  /** The shortage alert and the congratulatory note never appear together;
      the note appears exactly when there are rows, none of them short, and
      at least one class was held. */
  lemma ShortageAndExcellentExclusive(data: seq<SubjectRow>)
    requires Report(data).Rendered?
    ensures ShortageHeading in Report(data).lines ==> Excellent !in Report(data).lines
    ensures ShortageHeading in Report(data).lines <==> ShortageRows(data) != []
    ensures Excellent in Report(data).lines <==>
            data != [] && ShortageRows(data) == [] && TotalClassesAll(data) > 0
  {
    if data != [] {
      var body := Header(data) + BreakdownLines(data);
      BodyHasNoMarkers(data);
      var shortage := ShortageRows(data);
      if shortage != [] {
        var alert := ShortageLines(shortage);
        AlertHasNoExcellent(shortage);
        assert Report(data).lines == body + [ShortageHeading] + alert;
        assert Report(data).lines[|body|] == ShortageHeading;
      } else if TotalClassesAll(data) > 0 {
        assert Report(data).lines == body + [Excellent];
        assert Report(data).lines[|body|] == Excellent;
      }
    }
  }

  /** The header and the table hold neither the shortage heading nor the note. */
  lemma BodyHasNoMarkers(data: seq<SubjectRow>)
    requires data != []
    ensures ShortageHeading !in Header(data) + BreakdownLines(data)
    ensures Excellent !in Header(data) + BreakdownLines(data)
  {
    HeaderHasNoMarkers(data);
    TableHasNoMarkers(data);
  }

  lemma HeaderHasNoMarkers(data: seq<SubjectRow>)
    requires data != []
    ensures ShortageHeading !in Header(data) && Excellent !in Header(data)
  {
    var h := Header(data);
    assert forall k :: 0 <= k < |h| ==> !h[k].ShortageHeading? && !h[k].Excellent?;
  }

  lemma TableHasNoMarkers(data: seq<SubjectRow>)
    ensures ShortageHeading !in BreakdownLines(data) && Excellent !in BreakdownLines(data)
  {
    var table := BreakdownLines(data);
    BreakdownLinesAt(data);
    assert forall k :: 0 <= k < |table| ==> table[k].Breakdown?;
  }

  /** The alert lines are all `Shortage` lines. */
  lemma AlertHasNoExcellent(rows: seq<SubjectRow>)
    requires AllHavePercentage(rows)
    ensures ShortageHeading !in ShortageLines(rows) && Excellent !in ShortageLines(rows)
  {
    var alert := ShortageLines(rows);
    ShortageLinesAt(rows);
    assert forall l :: l in alert ==> l.Shortage?;
  }

  /** Every LOW tag marks a shortage row: the rounded value is below 75 only
      if the raw value is. */
  lemma LowTagIsShortage(row: SubjectRow)
    requires StatusOf(PercentOrZero(row.attendancePercentage)) == LOW
    ensures InShortage(row)
  {
  }

  /** The converse fails: a row at 74.999% is tagged OK in the breakdown (its
      two-decimal text is "75.00") yet is listed in the shortage alert. */
  lemma OkTagShortageRow()
    ensures var row := SubjectRow("S", "ID", "BCA", "5", "DBMS", Some(1000), Some(749),
                                  Some(251), Some(74.999));
            StatusOf(PercentOrZero(row.attendancePercentage)) == OK && InShortage(row)
  {
    assert Hundredths(74.999) == 7500;
  }
}
