/** The teacher's class page: the three lists the page keeps (the subjects
    the teacher created, the queue of classes waiting for attendance and the
    classes completed today), the actions that change them, and the pure
    helpers that label streams, subjects and class times. The server calls
    are replaced by a `saved` flag that says whether the server accepted the
    change. */
module MyClass {
  import opened Js

  // ---------------------------------------------------------------------------
  // Stream icons, codes and the stream list
  // ---------------------------------------------------------------------------

  /** The icon of each known stream name. */
  const IconMap: map<string, string> := map[
    "BBA" := "business_center",
    "BCA" := "computer",
    "BCA AI & ML" := "psychology",
    "BCOM" := "account_balance",
    "BCOM Section B" := "group",
    "BCOM Section C" := "groups",
    "BCom A&F" := "calculate",
    "BDA" := "analytics"]

  const DefaultIcon: string := "school"

  /** The icon of a stream: its entry in `IconMap`, or the default icon for
      any other name and for a missing name. */
  function GetIconForStream(streamName: Field): (icon: string)
    ensures icon != ""
    ensures streamName.Str? && streamName.s in IconMap ==> icon == IconMap[streamName.s]
    ensures icon == DefaultIcon <==> !(streamName.Str? && streamName.s in IconMap)
  {
    if streamName.Str? && streamName.s in IconMap then IconMap[streamName.s] else DefaultIcon
  }

  /** `name.toLowerCase().replace(/\s+/g, '')`. */
  function StreamCode(name: string): (code: string)
    ensures forall i :: 0 <= i < |code| ==> !IsSpace(code[i]) && !('A' <= code[i] <= 'Z')
    ensures code == [] <==> IsBlank(name)
  {
    var lower := ToLower(name);
    assert forall c :: c in lower ==> !('A' <= c <= 'Z');
    assert IsBlank(lower) <==> IsBlank(name);
    RemoveSpaces(lower)
  }

  /** A stream code is its own code: deriving a code twice changes nothing. */
  lemma StreamCodeIdempotent(name: string)
    ensures StreamCode(StreamCode(name)) == StreamCode(name)
  {
    var code := StreamCode(name);
    LowerFixed(code);
    RemoveSpacesFixed(code);
  }

  /** The code of a concatenation is the concatenation of the codes. */
  lemma StreamCodeAppend(a: string, b: string)
    ensures StreamCode(a + b) == StreamCode(a) + StreamCode(b)
  {
    ToLowerAppend(a, b);
    RemoveSpacesAppend(ToLower(a), ToLower(b));
  }

  /** One character's code: nothing for whitespace, else the character
      lower-cased. With `StreamCodeAppend` this fixes the code of every name. */
  lemma StreamCodeChar(c: char)
    ensures StreamCode([c]) == if IsSpace(c) then [] else [LowerChar(c)]
  {
    assert ToLower([c]) == [LowerChar(c)];
    LowerCharKeepsSpace(c);
    RemoveSpacesChar(LowerChar(c));
  }

  lemma {:induction false} LowerFixed(s: string)
    requires forall i :: 0 <= i < |s| ==> !('A' <= s[i] <= 'Z')
    ensures ToLower(s) == s
  {
    if s != [] {
      LowerFixed(s[1..]);
    }
  }

  lemma {:induction false} RemoveSpacesFixed(s: string)
    requires forall i :: 0 <= i < |s| ==> !IsSpace(s[i])
    ensures RemoveSpaces(s) == s
  {
    if s != [] {
      RemoveSpacesFixed(s[1..]);
    }
  }

  /** One element of the `streams` array the streams endpoint returns. */
  datatype StreamEntry =
    | Text(s: string)
    | Object(name: Field, streamCode: Field)
    | NullValue
    | OtherValue

  /** The body of a successful streams response; `streams` is `None` when
      it is not an array. */
  datatype StreamsBody = StreamsBody(success: bool, streams: Option<seq<StreamEntry>>)

  /** A stream as the page keeps it. */
  datatype StreamOption = StreamOption(name: Field, displayName: Field, streamCode: Field, icon: string)

  function StreamFromName(streamName: string): StreamOption {
    StreamOption(Str(streamName), Str(streamName), Str(StreamCode(streamName)), GetIconForStream(Str(streamName)))
  }

  /** `stream.name` and `stream.streamCode` of an array element; a string or a
      number has neither property. */
  function StreamFromEntry(entry: StreamEntry): StreamOption {
    var name := if entry.Object? then entry.name else Missing;
    var code := if entry.Object? then entry.streamCode else Missing;
    StreamOption(name, name, code, GetIconForStream(name))
  }

  function StreamsFromNames(entries: seq<StreamEntry>): (r: seq<StreamOption>)
    requires forall i :: 0 <= i < |entries| ==> entries[i].Text?
    ensures |r| == |entries|
    ensures forall i :: 0 <= i < |r| ==> r[i] == StreamFromName(entries[i].s)
  {
    if entries == [] then [] else [StreamFromName(entries[0].s)] + StreamsFromNames(entries[1..])
  }

  function StreamsFromEntries(entries: seq<StreamEntry>): (r: seq<StreamOption>)
    ensures |r| == |entries|
    ensures forall i :: 0 <= i < |r| ==> r[i] == StreamFromEntry(entries[i])
  {
    if entries == [] then [] else [StreamFromEntry(entries[0])] + StreamsFromEntries(entries[1..])
  }

  /** The first element decides the format: all strings, or objects whose
      first has a name. */
  predicate StringFormat(entries: seq<StreamEntry>) { entries != [] && entries[0].Text? }
  predicate ObjectFormat(entries: seq<StreamEntry>) {
    entries != [] && entries[0].Object? && entries[0].name.Truthy()
  }

  /** Whether mapping the array throws: a non-string in the string format,
      a `null` element in the object format, or an unknown format. */
  predicate MappingThrows(entries: seq<StreamEntry>) {
    if StringFormat(entries) then exists i :: 0 <= i < |entries| && !entries[i].Text?
    else if ObjectFormat(entries) then exists i :: 0 <= i < |entries| && entries[i].NullValue?
    else true
  }

  /** The streams the page keeps after loading them; every failure (no
      response, an unsuccessful or empty body, an element the mapping cannot
      read) leaves the list empty. */
  function LoadStreams(response: Option<StreamsBody>): (streams: seq<StreamOption>)
    ensures streams == [] <==>
              response.None? || !response.value.success || response.value.streams.None? ||
              response.value.streams.value == [] || MappingThrows(response.value.streams.value)
    ensures streams != [] ==> |streams| == |response.value.streams.value|
    ensures forall i :: 0 <= i < |streams| ==>
              streams[i].displayName == streams[i].name &&
              streams[i].icon == GetIconForStream(streams[i].name)
    ensures streams != [] && StringFormat(response.value.streams.value) ==>
              forall i :: 0 <= i < |streams| ==>
                streams[i].name == Str(response.value.streams.value[i].s) &&
                streams[i].streamCode == Str(StreamCode(response.value.streams.value[i].s))
    ensures streams != [] && ObjectFormat(response.value.streams.value) ==>
              forall i :: 0 <= i < |streams| ==>
                var entry := response.value.streams.value[i];
                streams[i].name == (if entry.Object? then entry.name else Missing) &&
                streams[i].streamCode == (if entry.Object? then entry.streamCode else Missing)
  {
    if response.None? || !response.value.success || response.value.streams.None? then []
    else
      var entries := response.value.streams.value;
      if entries == [] || MappingThrows(entries) then []
      else if StringFormat(entries) then StreamsFromNames(entries)
      else StreamsFromEntries(entries)
  }

  // ---------------------------------------------------------------------------
  // Subject labels
  // ---------------------------------------------------------------------------

  /** One subject as the subjects endpoint returns it: an object or a plain
      value. */
  datatype SubjectValue =
    | SubjectObject(name: Field, subjectName: Field, subject: Field)
    | Plain(text: string)

  /** The value and text of a subject's dropdown option:
      `name || subjectName || subject` for an object, the value itself
      otherwise. */
  function SubjectLabel(value: SubjectValue): (shown: Field)
    ensures value.Plain? ==> shown == Str(value.text)
    ensures value.SubjectObject? ==>
              (value.name.Truthy() ==> shown == value.name) &&
              (!value.name.Truthy() && value.subjectName.Truthy() ==> shown == value.subjectName) &&
              (!value.name.Truthy() && !value.subjectName.Truthy() ==> shown == value.subject)
    ensures value.SubjectObject? && shown.Truthy() ==>
              shown in {value.name, value.subjectName, value.subject}
  {
    match value
    case Plain(text) => Str(text)
    case SubjectObject(name, subjectName, subject) =>
      if name.Truthy() then name else if subjectName.Truthy() then subjectName else subject
  }

  /** The options of the subject dropdown, one per subject and in order (the
      placeholder option aside). */
  function SubjectOptions(subjects: seq<SubjectValue>): (labels: seq<Field>)
    ensures |labels| == |subjects|
    ensures forall i :: 0 <= i < |labels| ==> labels[i] == SubjectLabel(subjects[i])
  {
    if subjects == [] then [] else [SubjectLabel(subjects[0])] + SubjectOptions(subjects[1..])
  }

  // ---------------------------------------------------------------------------
  // Class timing
  // ---------------------------------------------------------------------------

  /** A 12-hour clock label such as "2:30 PM". */
  datatype ClockLabel = ClockLabel(displayHour: int, halfHour: bool, pm: bool)

  /** The hour of the day, 0 to 23, that a 12-hour clock label names. */
  function HourOf(clock: ClockLabel): int {
    if clock.pm then (if clock.displayHour == 12 then 12 else clock.displayHour + 12)
    else (if clock.displayHour == 12 then 0 else clock.displayHour)
  }

  /** The label of an hour of the day on a 12-hour clock. */
  function FormatTime(hour: int, halfHour: bool): (clock: ClockLabel)
    ensures clock.halfHour == halfHour
    ensures 0 <= hour < 24 ==> 1 <= clock.displayHour <= 12 && HourOf(clock) == hour
    ensures hour == 24 ==> clock.displayHour == 12 && clock.pm && HourOf(clock) == 12
  {
    var pm := hour >= 12;
    var displayHour := if hour > 12 then hour - 12 else if hour == 0 then 12 else hour;
    ClockLabel(displayHour, halfHour, pm)
  }

  /** On a 12-hour clock a label is fixed by the hour it names and its half
      hour mark: no two labels with display hours from 1 to 12 name the same
      hour. */
  lemma LabelDetermined(a: ClockLabel, b: ClockLabel)
    requires 1 <= a.displayHour <= 12 && 1 <= b.displayHour <= 12
    requires HourOf(a) == HourOf(b) && a.halfHour == b.halfHour
    ensures a == b
  {
  }

  /** The text of a clock label: the display hour, the minutes, then AM or
      PM. */
  function LabelText(clock: ClockLabel): (text: string)
    ensures |text| >= 7
    ensures text[|text| - 6..|text| - 3] == (if clock.halfHour then ":30" else ":00")
    ensures text[|text| - 2..] == (if clock.pm then "PM" else "AM")
  {
    IntToString(clock.displayHour) + ":" + (if clock.halfHour then "30" else "00") + " " +
    (if clock.pm then "PM" else "AM")
  }

  /** The hour and minute of a local time given in whole minutes. */
  function HourOfDay(localMinutes: int): (h: int)
    ensures 0 <= h < 24
  {
    (localMinutes / 60) % 24
  }

  function MinuteOfHour(localMinutes: int): (m: int)
    ensures 0 <= m < 60
  {
    localMinutes % 60
  }

  /** The slot of a class completed at `localMinutes`, as the page computes
      it: from its hour to the next, on the half hour when it was completed
      after half past. The end hour is `hours + 1` without wrapping. */
  function ClassTiming(localMinutes: int): (slot: (ClockLabel, ClockLabel))
    ensures slot.0 == FormatTime(HourOfDay(localMinutes), MinuteOfHour(localMinutes) > 30)
    ensures HourOfDay(localMinutes) < 23 ==> HourOf(slot.1) == HourOfDay(localMinutes) + 1
    ensures HourOfDay(localMinutes) == 23 ==> HourOf(slot.1) == 12
    ensures slot.1.halfHour == slot.0.halfHour == (MinuteOfHour(localMinutes) > 30)
    ensures 1 <= slot.0.displayHour <= 12 && 1 <= slot.1.displayHour <= 12
    ensures HourOfDay(localMinutes) == 23 ==> slot.1.displayHour == 12 && slot.1.pm
  {
    var minutes := MinuteOfHour(localMinutes);
    var hours := HourOfDay(localMinutes);
    var startHour := hours;
    var endHour := hours + 1;
    (FormatTime(startHour, minutes > 30), FormatTime(endHour, minutes > 30))
  }

  /** `getClassTiming`: the slot as text. */
  function GetClassTiming(localMinutes: int): string {
    var slot := ClassTiming(localMinutes);
    LabelText(slot.0) + " - " + LabelText(slot.1)
  }

  /** A class completed at 23:10 is shown ending at noon. */
  lemma LateClassEndsAtNoon()
    ensures ClassTiming(23 * 60 + 10).1 == ClockLabel(12, false, true)
    ensures HourOf(ClassTiming(23 * 60 + 10).1) != (23 + 1) % 24
  {
  }

  /** The text the page shows for a class completed at 23:10. */
  lemma LateClassTimingText()
    ensures GetClassTiming(23 * 60 + 10) == "11:00 PM - 12:00 PM"
  {
    LateSlot();
    PmLabelText(11);
    PmLabelText(12);
    assert "11:00 PM" + " - " + "12:00 PM" == "11:00 PM - 12:00 PM";
  }

  lemma LateSlot()
    ensures ClassTiming(23 * 60 + 10) == (ClockLabel(11, false, true), ClockLabel(12, false, true))
  {
  }

  /** The text of a whole-hour PM label with a two-digit display hour. */
  lemma PmLabelText(h: int)
    requires 10 <= h <= 12
    ensures LabelText(ClockLabel(h, false, true)) == (if h == 10 then "10" else if h == 11 then "11" else "12") + ":00 PM"
  {
    assert NatToString(h / 10) == "1";
    assert IntToString(h) == (if h == 10 then "10" else if h == 11 then "11" else "12");
  }

  /** The slot with the end hour taken modulo 24. */
  function CorrectedClassTiming(localMinutes: int): (slot: (ClockLabel, ClockLabel))
    ensures HourOf(slot.0) == HourOfDay(localMinutes)
    ensures HourOf(slot.1) == (HourOf(slot.0) + 1) % 24
    ensures slot.0.halfHour == slot.1.halfHour == (MinuteOfHour(localMinutes) > 30)
    ensures 1 <= slot.0.displayHour <= 12 && 1 <= slot.1.displayHour <= 12
  {
    var minutes := MinuteOfHour(localMinutes);
    var hours := HourOfDay(localMinutes);
    (FormatTime(hours, minutes > 30), FormatTime((hours + 1) % 24, minutes > 30))
  }

  /** Corrected, a class completed at 23:10 ends at midnight, "12:00 AM". */
  lemma CorrectedLateClassEndsAtMidnight()
    ensures CorrectedClassTiming(23 * 60 + 10).1 == ClockLabel(12, false, false)
  {
  }

  /** The corrected slot agrees with the page's slot at every hour but the
      last. */
  lemma CorrectedAgreesBeforeEleven(localMinutes: int)
    requires HourOfDay(localMinutes) < 23
    ensures CorrectedClassTiming(localMinutes) == ClassTiming(localMinutes)
  {
  }

  // ---------------------------------------------------------------------------
  // The three lists
  // ---------------------------------------------------------------------------

  /** A created subject, a queued class or a completed class: a generated id,
      the class, and the time it was created, queued or completed.
      `semester` is `None` where the stored value is `null`. */
  datatype Entry = Entry(id: string, stream: string, semester: Option<int>, subject: string, at: int)

  /** Two entries name the same class. */
  predicate SameClass(a: Entry, b: Entry) {
    a.stream == b.stream && a.semester == b.semester && a.subject == b.subject
  }

  /** No class appears twice. */
  predicate Distinct(entries: seq<Entry>) {
    forall i, j :: 0 <= i < j < |entries| ==> !SameClass(entries[i], entries[j])
  }

  /** `entries.some(item => same class as entry)`. */
  predicate Listed(entries: seq<Entry>, entry: Entry) {
    exists i :: 0 <= i < |entries| && SameClass(entries[i], entry)
  }

  /** `entries.find(e => e.id === id)`, as the index of the first match. */
  function FirstWithId(entries: seq<Entry>, id: string): (k: Option<nat>)
    ensures k.Some? ==> k.value < |entries| && entries[k.value].id == id &&
                        forall j :: 0 <= j < k.value ==> entries[j].id != id
    ensures k.None? ==> forall j :: 0 <= j < |entries| ==> entries[j].id != id
  {
    if entries == [] then None
    else if entries[0].id == id then Some(0)
    else
      var rest := FirstWithId(entries[1..], id);
      if rest.Some? then Some(rest.value + 1) else None
  }

  /** `entries.filter(e => e.id !== id)`. */
  function WithoutId(entries: seq<Entry>, id: string): (r: seq<Entry>)
    ensures |r| <= |entries|
    ensures forall e :: e in r <==> e in entries && e.id != id
  {
    if entries == [] then []
    else if entries[0].id != id then [entries[0]] + WithoutId(entries[1..], id)
    else WithoutId(entries[1..], id)
  }

  /** Filtering a concatenation filters each part: the kept entries stay in
      their order. */
  lemma {:induction false} WithoutIdAppend(a: seq<Entry>, b: seq<Entry>, id: string)
    ensures WithoutId(a + b, id) == WithoutId(a, id) + WithoutId(b, id)
    decreases |a|
  {
    if a != [] {
      var ab := a + b;
      assert ab[0] == a[0] && ab[1..] == a[1..] + b;
      WithoutIdAppend(a[1..], b, id);
      var tail := WithoutId(a[1..], id) + WithoutId(b, id);
      assert WithoutId(ab, id) == (if a[0].id != id then [a[0]] else []) + tail;
      assert WithoutId(a, id) == (if a[0].id != id then [a[0]] else []) + WithoutId(a[1..], id);
    } else {
      assert a + b == b;
    }
  }

  /** A single entry is kept exactly when its id differs. */
  lemma WithoutIdSingle(e: Entry, id: string)
    ensures WithoutId([e], id) == if e.id != id then [e] else []
  {
    assert [e][1..] == [];
  }

  /** Removing an id nobody has changes nothing. */
  lemma {:induction false} WithoutAbsentId(entries: seq<Entry>, id: string)
    requires forall j :: 0 <= j < |entries| ==> entries[j].id != id
    ensures WithoutId(entries, id) == entries
  {
    if entries != [] {
      WithoutAbsentId(entries[1..], id);
      assert entries == [entries[0]] + entries[1..];
    }
  }

  /** Removing an id that someone has shortens the list. */
  lemma {:induction false} WithoutPresentId(entries: seq<Entry>, id: string, k: nat)
    requires k < |entries| && entries[k].id == id
    ensures |WithoutId(entries, id)| < |entries|
  {
    if k > 0 {
      WithoutPresentId(entries[1..], id, k - 1);
    }
  }

  /** Filtering keeps the remaining entries in their order, so a list
      without repeated classes stays so. */
  lemma {:induction false} WithoutIdKeepsDistinct(entries: seq<Entry>, id: string)
    requires Distinct(entries)
    ensures Distinct(WithoutId(entries, id))
  {
    if entries != [] {
      var rest := entries[1..];
      assert Distinct(rest) by {
        forall i, j | 0 <= i < j < |rest|
          ensures !SameClass(rest[i], rest[j])
        {
          assert rest[i] == entries[i + 1] && rest[j] == entries[j + 1];
        }
      }
      WithoutIdKeepsDistinct(rest, id);
      if entries[0].id != id {
        var tail := WithoutId(rest, id);
        forall y | y in tail
          ensures !SameClass(entries[0], y)
        {
          var j :| 0 <= j < |rest| && rest[j] == y;
          assert entries[j + 1] == y;
        }
        ConsDistinct(entries[0], tail);
      }
    }
  }

  lemma ConsDistinct(x: Entry, tail: seq<Entry>)
    requires Distinct(tail)
    requires forall y :: y in tail ==> !SameClass(x, y)
    ensures Distinct([x] + tail)
  {
    var s := [x] + tail;
    forall i, j | 0 <= i < j < |s|
      ensures !SameClass(s[i], s[j])
    {
      if i == 0 {
        assert s[j] == tail[j - 1] && s[j] in tail;
      } else {
        assert s[i] == tail[i - 1] && s[j] == tail[j - 1];
      }
    }
  }

  /** Appending a class that is not listed keeps the classes distinct. */
  lemma AppendDistinct(entries: seq<Entry>, x: Entry)
    requires Distinct(entries) && !Listed(entries, x)
    ensures Distinct(entries + [x])
  {
    var s := entries + [x];
    forall i, j | 0 <= i < j < |s|
      ensures !SameClass(s[i], s[j])
    {
      if j == |entries| {
        assert s[i] == entries[i] && s[j] == x;
      } else {
        assert s[i] == entries[i] && s[j] == entries[j];
      }
    }
  }

  datatype AddOutcome = NoSuchSubject | AlreadyQueued | Added | AddFailed
  datatype TakeOutcome = ItemNotFound | Taken(completed: Entry) | TakeFailed
  datatype CreateOutcome = MissingFields | NotAuthenticated | AlreadyCreated | Created(subject: Entry) | CreateFailed

  /** The page's lists. */
  class ClassBoard {
    var createdSubjects: seq<Entry>
    var attendanceQueue: seq<Entry>
    var completedClasses: seq<Entry>

    constructor()
      ensures createdSubjects == [] && attendanceQueue == [] && completedClasses == []
    {
      createdSubjects := [];
      attendanceQueue := [];
      completedClasses := [];
    }

    /** `addToQueue`: queues the created subject with the given id unless
        its class is already queued; the pushed item is popped again when
        the server refuses the new queue. */
    method AddToQueue(subjectId: string, newId: string, now: int, saved: bool) returns (outcome: AddOutcome)
      modifies this
      ensures createdSubjects == old(createdSubjects) && completedClasses == old(completedClasses)
      ensures FirstWithId(old(createdSubjects), subjectId).None? <==> outcome == NoSuchSubject
      ensures outcome != Added ==> attendanceQueue == old(attendanceQueue)
      ensures FirstWithId(old(createdSubjects), subjectId).Some? ==>
                var subject := old(createdSubjects)[FirstWithId(old(createdSubjects), subjectId).value];
                && (Listed(old(attendanceQueue), subject) <==> outcome == AlreadyQueued)
                && (outcome == Added <==> !Listed(old(attendanceQueue), subject) && saved)
                && (outcome == Added ==>
                      attendanceQueue == old(attendanceQueue) + [Entry(newId, subject.stream, subject.semester, subject.subject, now)])
      ensures Distinct(old(attendanceQueue)) ==> Distinct(attendanceQueue)
    {
      var found := FirstWithId(createdSubjects, subjectId);
      if found.None? {
        return NoSuchSubject;
      }
      var subject := createdSubjects[found.value];
      if Listed(attendanceQueue, subject) {
        return AlreadyQueued;
      }
      var queueItem := Entry(newId, subject.stream, subject.semester, subject.subject, now);
      if Distinct(attendanceQueue) {
        assert !Listed(attendanceQueue, queueItem);
        AppendDistinct(attendanceQueue, queueItem);
      }
      attendanceQueue := attendanceQueue + [queueItem];
      if saved {
        outcome := Added;
      } else {
        attendanceQueue := attendanceQueue[..|attendanceQueue| - 1];
        outcome := AddFailed;
      }
    }

    /** `removeFromQueue`: drops every queued item with the id, and puts
        the old queue back when the server refuses the new one. */
    method RemoveFromQueue(itemId: string, saved: bool)
      modifies this
      ensures createdSubjects == old(createdSubjects) && completedClasses == old(completedClasses)
      ensures saved ==> attendanceQueue == WithoutId(old(attendanceQueue), itemId)
      ensures !saved ==> attendanceQueue == old(attendanceQueue)
      ensures Distinct(old(attendanceQueue)) ==> Distinct(attendanceQueue)
    {
      var original := attendanceQueue;
      if Distinct(attendanceQueue) {
        WithoutIdKeepsDistinct(attendanceQueue, itemId);
      }
      attendanceQueue := WithoutId(attendanceQueue, itemId);
      if !saved {
        attendanceQueue := original;
      }
    }

    /** `takeAttendance`: moves the first queued item with the id to the
        completed classes, as a new entry stamped `now`; when saving fails
        the queue is put back and nothing is completed. */
    method TakeAttendance(itemId: string, newId: string, now: int, saved: bool) returns (outcome: TakeOutcome)
      modifies this
      ensures createdSubjects == old(createdSubjects)
      ensures FirstWithId(old(attendanceQueue), itemId).None? <==> outcome == ItemNotFound
      ensures outcome.Taken? <==> FirstWithId(old(attendanceQueue), itemId).Some? && saved
      ensures outcome.Taken? ==>
                var item := old(attendanceQueue)[FirstWithId(old(attendanceQueue), itemId).value];
                && outcome.completed == Entry(newId, item.stream, item.semester, item.subject, now)
                && attendanceQueue == WithoutId(old(attendanceQueue), itemId)
                && |attendanceQueue| < |old(attendanceQueue)|
                && completedClasses == old(completedClasses) + [outcome.completed]
      ensures !outcome.Taken? ==>
                attendanceQueue == old(attendanceQueue) && completedClasses == old(completedClasses)
      ensures Distinct(old(attendanceQueue)) ==> Distinct(attendanceQueue)
    {
      var found := FirstWithId(attendanceQueue, itemId);
      if found.None? {
        return ItemNotFound;
      }
      var item := attendanceQueue[found.value];
      var originalQueue := attendanceQueue;
      WithoutPresentId(attendanceQueue, itemId, found.value);
      if Distinct(attendanceQueue) {
        WithoutIdKeepsDistinct(attendanceQueue, itemId);
      }
      attendanceQueue := WithoutId(attendanceQueue, itemId);
      var completedClass := Entry(newId, item.stream, item.semester, item.subject, now);
      if saved {
        completedClasses := completedClasses + [completedClass];
        outcome := Taken(completedClass);
      } else {
        attendanceQueue := originalQueue;
        outcome := TakeFailed;
      }
    }

    /** `handleCreateSubject`: checks the form and the created subjects and
        decides what is sent to the server. It changes no list itself: after
        a successful save the page reloads its lists from the server. The
        semester is compared as `parseInt(semester)`, so a semester that does
        not parse never matches. */
    method HandleCreateSubject(stream: Field, semester: Field, subject: Field, userEmail: Field,
                               newId: string, now: int, saved: bool)
      returns (outcome: CreateOutcome)
      ensures outcome == MissingFields <==> !(stream.Truthy() && semester.Truthy() && subject.Truthy())
      ensures outcome == NotAuthenticated <==>
                stream.Truthy() && semester.Truthy() && subject.Truthy() && !userEmail.Truthy()
      ensures outcome == AlreadyCreated <==>
                stream.Truthy() && semester.Truthy() && subject.Truthy() && userEmail.Truthy() &&
                ParseInt(semester.s).Some? &&
                Listed(createdSubjects, Entry(newId, stream.s, ParseInt(semester.s), subject.s, now))
      ensures outcome.Created? ==>
                saved && outcome.subject == Entry(newId, stream.s, ParseInt(semester.s), subject.s, now)
      ensures outcome == CreateFailed ==> !saved
    {
      if !stream.Truthy() || !semester.Truthy() || !subject.Truthy() {
        return MissingFields;
      }
      if !userEmail.Truthy() {
        return NotAuthenticated;
      }
      var parsed := ParseInt(semester.s);
      var subjectData := Entry(newId, stream.s, parsed, subject.s, now);
      if parsed.Some? && Listed(createdSubjects, subjectData) {
        return AlreadyCreated;
      }
      if saved {
        outcome := Created(subjectData);
      } else {
        outcome := CreateFailed;
      }
    }
  }
}
