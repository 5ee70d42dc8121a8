/** The `/chat` route: validates the user's text, asks the query generator
    for an intent, answers conversationally when the intent names no
    collection, runs the query, turns the domain failures of the run into
    explanatory answers, and picks the report formatter, a table or the
    narrator for the rows it got. The language model, the query generator
    and the database are not modelled: what each call would give in this
    request is an input (`Services`). */
module ChatRoute {
  import opened Js
  import R = AttendanceReport

  /** The request body: `{ message?, question? }`. */
  datatype Body = Body(message: Field, question: Field)

  /** The intent the query generator returns. */
  datatype Intent = Intent(collection: Field, operation: Field, explanation: Field)

  /** What executing the intent gives: an array of documents, a count, or
      any other value (only its truthiness matters). A document is read here
      only through the fields of the attendance report. */
  datatype QueryValue = Docs(docs: seq<R.SubjectRow>) | Count(n: int) | Other(truthy: bool)

  /** The outcome of an awaited call that may throw. */
  datatype Call<T> = Returns(value: T) | Throws(message: string)

  /** What each collaborator would give in this request. */
  datatype Services = Services(
    generateQuery: Call<Intent>,         // queryGenerator.generateMongoQuery
    conversationalReply: Call<string>,   // geminiService.generateResponse
    execute: Call<QueryValue>,           // queryGenerator.executeQuery
    table: Field,                        // queryGenerator.formatAsTable: text or null
    narration: Call<string>,             // queryGenerator.generateNaturalResponse
    friendly: string)                    // queryGenerator.friendlyFormatResults

  /** The suggestion block of an empty result, one per collection kind. */
  datatype Advice = StudentSearch | SubjectSearch | AttendanceSearch | GeneralAdvice

  /** The answer text, by the template that produced it. */
  datatype Answer =
    | Text(text: string)
    | Report(lines: seq<R.Line>)
    | Table(count: nat, table: string)
    | NoClassesConducted(studentName: string, stream: string, semester: string)
    | NoAttendanceForStudent(studentName: string, stream: string, semester: string, studentID: string)
    | StudentNotFound(studentName: string)
    | QueryError(details: string)
    | NoResults(advice: Advice)

  /** The remediation block of a 500 answer. */
  datatype Trouble = Overloaded | AiService | DatabaseConnection | QueryUnderstanding | Unexpected(details: string)

  datatype QueryInfo = QueryInfo(collection: Field, operation: Field, explanation: string)

  /** The `rawData` key: absent, `null`, or the rows. */
  datatype RawData = NoRawData | RawNull | RawRows(rows: seq<R.SubjectRow>)

  datatype Response =
    | BadRequest                                                        // 400, 'Message is required'
    | Success(answer: Answer, queryInfo: QueryInfo, resultCount: int, rawData: RawData)  // 200
    | ServerError(trouble: Trouble)                                     // 500

  function HttpStatus(r: Response): int {
    match r
    case BadRequest => 400
    case Success(_, _, _, _) => 200
    case ServerError(_) => 500
  }

  // ---------------------------------------------------------------------------
  // Validation
  // ---------------------------------------------------------------------------

  /** `message || question`. */
  function UserQuery(body: Body): (q: Field)
    ensures body.message.Truthy() ==> q == body.message
    ensures !body.message.Truthy() ==> q == body.question
  {
    if body.message.Truthy() then body.message else body.question
  }

  /** `!userQuery || !userQuery.trim()`: no text, or whitespace only. */
  predicate MissingText(q: Field) {
    !q.Truthy() || Trim(q.s) == ""
  }

  lemma MissingTextIffBlank(q: Field)
    ensures MissingText(q) <==> !q.Str? || IsBlank(q.s)
  {
  }

  // ---------------------------------------------------------------------------
  // Conversational intents
  // ---------------------------------------------------------------------------

  /** `!collection || collection === null || operation === null`. */
  predicate IsConversational(intent: Intent) {
    !intent.collection.Truthy() || intent.collection.Null? || intent.operation.Null?
  }

  /** `explanation || fallback`. */
  function ExplanationOr(explanation: Field, fallback: string): (e: string)
    ensures explanation.Truthy() ==> e == explanation.s
    ensures !explanation.Truthy() ==> e == fallback
  {
    if explanation.Truthy() then explanation.s else fallback
  }

  // ---------------------------------------------------------------------------
  // Execution failures
  // ---------------------------------------------------------------------------

  const NoAttendanceRecordsPrefix: string := "NO_ATTENDANCE_RECORDS:"
  const StudentExistsNoAttendancePrefix: string := "STUDENT_EXISTS_NO_ATTENDANCE:"
  const StudentNotFoundPrefix: string := "STUDENT_NOT_FOUND:"

  /** The answer to a failed execution, chosen by the first matching prefix
      of the error message; the fields after the prefix are the message's
      colon-separated parts. */
  function ExecutionFailureAnswer(message: string): (a: Answer)
    ensures StartsWith(message, NoAttendanceRecordsPrefix) ==> a.NoClassesConducted?
    ensures (!StartsWith(message, NoAttendanceRecordsPrefix) &&
             StartsWith(message, StudentExistsNoAttendancePrefix)) ==> a.NoAttendanceForStudent?
    ensures (!StartsWith(message, NoAttendanceRecordsPrefix) &&
             !StartsWith(message, StudentExistsNoAttendancePrefix) &&
             StartsWith(message, StudentNotFoundPrefix)) ==> a.StudentNotFound?
    ensures (!StartsWith(message, NoAttendanceRecordsPrefix) &&
             !StartsWith(message, StudentExistsNoAttendancePrefix) &&
             !StartsWith(message, StudentNotFoundPrefix)) ==> a == QueryError(message)
  {
    var parts := Split(message, ':');
    if StartsWith(message, NoAttendanceRecordsPrefix) then
      NoClassesConducted(PartOr(parts, 1), PartOr(parts, 2), PartOr(parts, 3))
    else if StartsWith(message, StudentExistsNoAttendancePrefix) then
      NoAttendanceForStudent(PartOr(parts, 1), PartOr(parts, 2), PartOr(parts, 3), PartOr(parts, 4))
    else if StartsWith(message, StudentNotFoundPrefix) then
      StudentNotFound(PartOr(parts, 1))
    else
      QueryError(message)
  }

  /** The explanation that accompanies each failure answer. */
  function ExecutionFailureExplanation(message: string): string {
    if StartsWith(message, NoAttendanceRecordsPrefix) then "No attendance records for stream/semester"
    else if StartsWith(message, StudentExistsNoAttendancePrefix) then "Student found but no attendance records"
    else if StartsWith(message, StudentNotFoundPrefix) then "Student not found in database"
    else "Query execution failed"
  }

  /** The name in a `STUDENT_NOT_FOUND:<name>` message is what follows the
      prefix, when it has no further colon. */
  lemma StudentNotFoundName(name: string)
    requires ':' !in name
    ensures ExecutionFailureAnswer(StudentNotFoundPrefix + name) == StudentNotFound(name)
  {
    var m := StudentNotFoundPrefix + name;
    PrefixedSplit(StudentNotFoundPrefix, name);
    assert !StartsWith(m, NoAttendanceRecordsPrefix) by { assert m[0] != NoAttendanceRecordsPrefix[0]; }
    assert !StartsWith(m, StudentExistsNoAttendancePrefix) by { assert m[8] != StudentExistsNoAttendancePrefix[8]; }
    SplitNoSeparator(name, ':');
  }

  /** The fields of a `NO_ATTENDANCE_RECORDS:<name>:<stream>:<semester>`
      message, when none of them holds a colon. */
  lemma NoClassesConductedFields(name: string, stream: string, semester: string)
    requires ':' !in name && ':' !in stream && ':' !in semester
    ensures ExecutionFailureAnswer(NoAttendanceRecordsPrefix + Join([name, stream, semester], ':'))
            == NoClassesConducted(name, stream, semester)
  {
    PrefixedSplit(NoAttendanceRecordsPrefix, Join([name, stream, semester], ':'));
    SplitJoin([name, stream, semester], ':');
  }

  /** The fields of a
      `STUDENT_EXISTS_NO_ATTENDANCE:<name>:<stream>:<semester>:<id>` message,
      when none of them holds a colon. */
  lemma NoAttendanceForStudentFields(name: string, stream: string, semester: string, id: string)
    requires ':' !in name && ':' !in stream && ':' !in semester && ':' !in id
    ensures ExecutionFailureAnswer(StudentExistsNoAttendancePrefix + Join([name, stream, semester, id], ':'))
            == NoAttendanceForStudent(name, stream, semester, id)
  {
    var fields := Join([name, stream, semester, id], ':');
    var m := StudentExistsNoAttendancePrefix + fields;
    PrefixedSplit(StudentExistsNoAttendancePrefix, fields);
    assert !StartsWith(m, NoAttendanceRecordsPrefix) by { assert m[0] != NoAttendanceRecordsPrefix[0]; }
    SplitJoin([name, stream, semester, id], ':');
  }

  /** A message made of a prefix and its fields starts with the prefix and
      splits into the prefix's name, then the fields' parts. */
  lemma PrefixedSplit(prefix: string, fields: string)
    requires prefix in {NoAttendanceRecordsPrefix, StudentExistsNoAttendancePrefix, StudentNotFoundPrefix}
    ensures StartsWith(prefix + fields, prefix)
    ensures Split(prefix + fields, ':') == [prefix[..|prefix| - 1]] + Split(fields, ':')
  {
    var m := prefix + fields;
    assert m[..|prefix|] == prefix;
    var p := prefix[..|prefix| - 1];
    assert prefix == p + ":";
    assert m == p + [':'] + fields;
    SplitAfterPrefix(p, ':', fields);
  }

  // ---------------------------------------------------------------------------
  // Empty results
  // ---------------------------------------------------------------------------

  /** `!queryResults || (Array.isArray(queryResults) && queryResults.length === 0)`:
      a falsy value (a count of 0 included) or an empty array. */
  predicate IsEmptyResult(v: QueryValue) {
    match v
    case Docs(docs) => |docs| == 0
    case Count(n) => n == 0
    case Other(truthy) => !truthy
  }

  /** The suggestion block for the collection the intent named. */
  function AdviceFor(collection: Field): (a: Advice)
    ensures a == StudentSearch <==> collection == Str("students")
    ensures a == SubjectSearch <==> collection == Str("subjects")
    ensures a == AttendanceSearch <==> collection == Str("attendance")
  {
    if collection == Str("students") then StudentSearch
    else if collection == Str("subjects") then SubjectSearch
    else if collection == Str("attendance") then AttendanceSearch
    else GeneralAdvice
  }

  // ---------------------------------------------------------------------------
  // Formatting the rows
  // ---------------------------------------------------------------------------

  /** The phrases that mark an explanation as asking for an attendance report. */
  const ReportPhrases: seq<string> := ["attendance report", "subject-wise attendance",
    "detailed attendance", "attendance summary", "attendance performance"]

  /** The report detection on the lower-cased explanation. */
  predicate IsAttendanceReport(explanation: Field) {
    explanation.Truthy() &&
    var e := ToLower(explanation.s);
    Includes(e, ReportPhrases[0]) || Includes(e, ReportPhrases[1]) || Includes(e, ReportPhrases[2]) ||
    Includes(e, ReportPhrases[3]) || Includes(e, ReportPhrases[4])
  }

  /** The detection is exactly "one of the phrases occurs in the lower-cased
      explanation". */
  lemma AttendanceReportIffPhrase(explanation: Field)
    ensures IsAttendanceReport(explanation) <==>
            explanation.Truthy() &&
            exists k :: 0 <= k < |ReportPhrases| && Occurs(ToLower(explanation.s), ReportPhrases[k])
  {
    if explanation.Truthy() {
      var e := ToLower(explanation.s);
      forall k | 0 <= k < |ReportPhrases|
        ensures Includes(e, ReportPhrases[k]) <==> Occurs(e, ReportPhrases[k])
      {
        IncludesIsOccurs(e, ReportPhrases[k]);
      }
    }
  }

  datatype Formatter = ReportFormatter | TableFormatter | Narrator | FriendlyFallback

  /** Which formatter produces the answer: the report for a report intent
      with rows; a table for more than three rows when `formatAsTable` gives
      text; otherwise the narrator, or the friendly formatter if it throws. */
  function ChooseFormatter(explanation: Field, v: QueryValue, table: Field, narration: Call<string>): (f: Formatter)
    ensures f == ReportFormatter <==> IsAttendanceReport(explanation) && v.Docs? && |v.docs| > 0
    ensures f == TableFormatter <==>
            !(IsAttendanceReport(explanation) && v.Docs? && |v.docs| > 0) &&
            v.Docs? && |v.docs| > 3 && table.Truthy()
    ensures f == FriendlyFallback ==> narration.Throws?
    ensures f == Narrator ==> narration.Returns?
  {
    if IsAttendanceReport(explanation) && v.Docs? && |v.docs| > 0 then ReportFormatter
    else if v.Docs? && |v.docs| > 3 && table.Truthy() then TableFormatter
    else if narration.Returns? then Narrator
    else FriendlyFallback
  }

  /** The answer of the chosen formatter, or the message of the `TypeError`
      the report formatter throws. */
  function FormatAnswer(intent: Intent, v: QueryValue, svc: Services): Call<Answer> {
    match ChooseFormatter(intent.explanation, v, svc.table, svc.narration)
    case ReportFormatter =>
      (match R.Report(v.docs)
       case Rendered(lines) => Returns(Report(lines))
       case PercentageTypeError => Throws(R.ToFixedTypeErrorMessage))
    case TableFormatter => Returns(Table(|v.docs|, svc.table.s))
    case Narrator => Returns(Text(Trim(svc.narration.value)))
    case FriendlyFallback => Returns(Text(Trim(svc.friendly)))
  }

  /** `resultCount`: the array length, the count itself, or else 1. */
  function ResultCount(v: QueryValue): (n: int)
    ensures v.Docs? ==> n == |v.docs|
    ensures v.Count? ==> n == v.n
    ensures v.Other? ==> n == 1
  {
    match v
    case Docs(docs) => |docs|
    case Count(n) => n
    case Other(_) => 1
  }

  /** `rawData`: the rows when there are more than one, else `null`. */
  function RawDataOf(v: QueryValue): (raw: RawData)
    ensures raw.RawRows? <==> v.Docs? && |v.docs| > 1
    ensures raw.RawRows? ==> raw.rows == v.docs
    ensures !raw.RawRows? ==> raw == RawNull
  {
    if v.Docs? && |v.docs| > 1 then RawRows(v.docs) else RawNull
  }

  // ---------------------------------------------------------------------------
  // Top-level errors
  // ---------------------------------------------------------------------------

  /** The remediation block for an error message, by the first matching
      pair of substrings. */
  function Classify(message: string): Trouble {
    if Includes(message, "overloaded") || Includes(message, "503") then Overloaded
    else if Includes(message, "Gemini") || Includes(message, "API") then AiService
    else if Includes(message, "MongoDB") || Includes(message, "database") then DatabaseConnection
    else if Includes(message, "JSON") || Includes(message, "parse") then QueryUnderstanding
    else Unexpected(message)
  }

  /** The remediation block is decided by which substrings occur in the
      message, in the order the handler tests them; an unrecognised message
      is passed through. */
  lemma ClassifyByOccurrence(message: string)
    ensures var t := Classify(message);
            (t == Overloaded <==> Occurs(message, "overloaded") || Occurs(message, "503")) &&
            (t == AiService <==>
               !(Occurs(message, "overloaded") || Occurs(message, "503")) &&
               (Occurs(message, "Gemini") || Occurs(message, "API"))) &&
            (t == DatabaseConnection <==>
               !(Occurs(message, "overloaded") || Occurs(message, "503")) &&
               !(Occurs(message, "Gemini") || Occurs(message, "API")) &&
               (Occurs(message, "MongoDB") || Occurs(message, "database"))) &&
            (t == QueryUnderstanding <==>
               !(Occurs(message, "overloaded") || Occurs(message, "503")) &&
               !(Occurs(message, "Gemini") || Occurs(message, "API")) &&
               !(Occurs(message, "MongoDB") || Occurs(message, "database")) &&
               (Occurs(message, "JSON") || Occurs(message, "parse"))) &&
            (t.Unexpected? ==> t.details == message)
  {
    IncludesIsOccurs(message, "overloaded");
    IncludesIsOccurs(message, "503");
    IncludesIsOccurs(message, "Gemini");
    IncludesIsOccurs(message, "API");
    IncludesIsOccurs(message, "MongoDB");
    IncludesIsOccurs(message, "database");
    IncludesIsOccurs(message, "JSON");
    IncludesIsOccurs(message, "parse");
  }

  // ---------------------------------------------------------------------------
  // The handler
  // ---------------------------------------------------------------------------

  /** `POST /chat`. */
  function Chat(body: Body, svc: Services): Response {
    var userQuery := UserQuery(body);
    if MissingText(userQuery) then BadRequest
    else match svc.generateQuery
      case Throws(m) => ServerError(Classify(m))
      case Returns(intent) =>
        if IsConversational(intent) then
          match svc.conversationalReply
          case Throws(m) => ServerError(Classify(m))
          case Returns(reply) =>
            Success(Text(Trim(reply)),
                    QueryInfo(Null, Null, ExplanationOr(intent.explanation, "Conversational response")),
                    0, NoRawData)
        else Execute(intent, svc)
  }

  /** The handler from the execution of a database intent on. */
  function Execute(intent: Intent, svc: Services): Response {
    match svc.execute
    case Throws(m) =>
      Success(ExecutionFailureAnswer(m),
              QueryInfo(intent.collection, intent.operation, ExecutionFailureExplanation(m)),
              0, NoRawData)
    case Returns(v) =>
      if IsEmptyResult(v) then
        Success(NoResults(AdviceFor(intent.collection)),
                QueryInfo(intent.collection, intent.operation, "No results found"),
                0, NoRawData)
      else match FormatAnswer(intent, v, svc)
        case Throws(m) => ServerError(Classify(m))
        case Returns(answer) =>
          Success(answer,
                  QueryInfo(intent.collection, intent.operation,
                            ExplanationOr(intent.explanation, "Query executed successfully")),
                  ResultCount(v), RawDataOf(v))
  }

  // ---------------------------------------------------------------------------
  // Properties of the handler
  // ---------------------------------------------------------------------------

  /** 400 exactly when neither field holds non-blank text, `message` winning
      over `question` when it is non-empty. */
  lemma BadRequestIffNoText(body: Body, svc: Services)
    ensures Chat(body, svc) == BadRequest <==>
            (if body.message.Truthy() then IsBlank(body.message.s)
             else !body.question.Str? || IsBlank(body.question.s))
    ensures HttpStatus(Chat(body, svc)) == 400 <==> Chat(body, svc) == BadRequest
  {
    MissingTextIffBlank(UserQuery(body));
  }

  /** A conversational intent whose reply arrives gives a success with no
      collection, no operation and a result count of 0. */
  lemma ConversationalIsSuccess(body: Body, svc: Services)
    requires !MissingText(UserQuery(body))
    requires svc.generateQuery.Returns? && IsConversational(svc.generateQuery.value)
    requires svc.conversationalReply.Returns?
    ensures var r := Chat(body, svc);
            r.Success? && HttpStatus(r) == 200 && r.resultCount == 0 && r.rawData == NoRawData &&
            r.queryInfo.collection == Null && r.queryInfo.operation == Null &&
            r.answer == Text(Trim(svc.conversationalReply.value))
  {
  }

  /** Every failed execution is answered with a success, a result count of
      0 and the intent's collection and operation; the answer is chosen by
      the message's prefix, the generic one last. */
  lemma ExecutionFailureIsSuccess(body: Body, svc: Services)
    requires !MissingText(UserQuery(body))
    requires svc.generateQuery.Returns? && !IsConversational(svc.generateQuery.value)
    requires svc.execute.Throws?
    ensures var r := Chat(body, svc);
            var m := svc.execute.message;
            r.Success? && HttpStatus(r) == 200 && r.resultCount == 0 &&
            r.queryInfo.collection == svc.generateQuery.value.collection &&
            r.queryInfo.operation == svc.generateQuery.value.operation &&
            (StartsWith(m, NoAttendanceRecordsPrefix) ==> r.answer.NoClassesConducted?) &&
            ((StartsWith(m, StudentExistsNoAttendancePrefix) && !StartsWith(m, NoAttendanceRecordsPrefix))
               ==> r.answer.NoAttendanceForStudent?) &&
            r.answer == ExecutionFailureAnswer(m) &&
            r.queryInfo.explanation == ExecutionFailureExplanation(m) &&
            (r.answer.QueryError? <==>
               !StartsWith(m, NoAttendanceRecordsPrefix) && !StartsWith(m, StudentExistsNoAttendancePrefix) &&
               !StartsWith(m, StudentNotFoundPrefix))
  {
  }

  /** An empty result (an empty array, a count of 0, a falsy value) is
      answered with the suggestions for the intent's collection. */
  lemma EmptyResultAdvice(body: Body, svc: Services)
    requires !MissingText(UserQuery(body))
    requires svc.generateQuery.Returns? && !IsConversational(svc.generateQuery.value)
    requires svc.execute.Returns? && IsEmptyResult(svc.execute.value)
    ensures var r := Chat(body, svc);
            r.Success? && r.resultCount == 0 && r.rawData == NoRawData &&
            r.answer == NoResults(AdviceFor(svc.generateQuery.value.collection))
  {
  }

  /** A non-empty result that formats gives `resultCount` by the value's
      kind and `rawData` exactly when there is more than one row. */
  lemma ResultCountAndRawData(body: Body, svc: Services)
    requires !MissingText(UserQuery(body))
    requires svc.generateQuery.Returns? && !IsConversational(svc.generateQuery.value)
    requires svc.execute.Returns? && !IsEmptyResult(svc.execute.value)
    requires Chat(body, svc).Success?
    ensures var r := Chat(body, svc);
            var v := svc.execute.value;
            r.resultCount == (if v.Docs? then |v.docs| else if v.Count? then v.n else 1) &&
            r.resultCount != 0 &&
            (r.rawData.RawRows? <==> v.Docs? && |v.docs| > 1) &&
            (r.rawData.RawRows? ==> r.rawData.rows == v.docs) &&
            (!r.rawData.RawRows? ==> r.rawData == RawNull)
  {
    var intent := svc.generateQuery.value;
    var v := svc.execute.value;
    var f := FormatAnswer(intent, v, svc);
    assert f.Returns?;
    assert Chat(body, svc) == Success(f.value, QueryInfo(intent.collection, intent.operation,
                                      ExplanationOr(intent.explanation, "Query executed successfully")),
                                      ResultCount(v), RawDataOf(v));
  }

  /** 500 exactly when the query generator throws, when the conversational
      reply throws, or when the report formatter throws on a row without a
      percentage; a failed narration never does (the friendly formatter
      takes over). */
  lemma ServerErrorCauses(body: Body, svc: Services)
    requires !MissingText(UserQuery(body))
    ensures Chat(body, svc).ServerError? <==>
            svc.generateQuery.Throws? ||
            (IsConversational(svc.generateQuery.value) && svc.conversationalReply.Throws?) ||
            (!IsConversational(svc.generateQuery.value) && svc.execute.Returns? &&
             !IsEmptyResult(svc.execute.value) &&
             ChooseFormatter(svc.generateQuery.value.explanation, svc.execute.value, svc.table, svc.narration) == ReportFormatter &&
             exists k :: 0 <= k < |svc.execute.value.docs| && !R.HasPercentage(svc.execute.value.docs[k]))
    ensures Chat(body, svc).ServerError? <==> HttpStatus(Chat(body, svc)) == 500
  {
    if svc.generateQuery.Returns? && !IsConversational(svc.generateQuery.value) {
      ExecuteServerError(svc.generateQuery.value, svc);
    }
  }

  /** Past a database intent, the only 500 is a formatter that throws. */
  lemma ExecuteServerError(intent: Intent, svc: Services)
    ensures Execute(intent, svc).ServerError? <==>
            svc.execute.Returns? && !IsEmptyResult(svc.execute.value) &&
            ChooseFormatter(intent.explanation, svc.execute.value, svc.table, svc.narration) == ReportFormatter &&
            exists k :: 0 <= k < |svc.execute.value.docs| && !R.HasPercentage(svc.execute.value.docs[k])
  {
    if svc.execute.Returns? && !IsEmptyResult(svc.execute.value) {
      FormatAnswerThrows(intent, svc.execute.value, svc);
    }
  }

  /** Formatting fails exactly when the report formatter is chosen and a
      row lacks its percentage. */
  lemma FormatAnswerThrows(intent: Intent, v: QueryValue, svc: Services)
    ensures FormatAnswer(intent, v, svc).Throws? <==>
            ChooseFormatter(intent.explanation, v, svc.table, svc.narration) == ReportFormatter &&
            exists k :: 0 <= k < |v.docs| && !R.HasPercentage(v.docs[k])
  {
    if ChooseFormatter(intent.explanation, v, svc.table, svc.narration) == ReportFormatter {
      R.CrashIffMissingPercentage(v.docs);
    }
  }
}
