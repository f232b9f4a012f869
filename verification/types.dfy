/** The records of the membership application and the validation of its forms
    (src/lib/types.ts). A form is checked field by field first, in the order its schema
    declares the fields; the meeting-series form then runs a cross-field refinement whose
    issues follow the field issues. Every check reports an `Issue` (a field path and a
    message) instead of failing. */
module Types {
  import opened Util
  import opened JsString

  // ---------------------------------------------------------------------------------------
  // Records

  datatype MemberRole = Leader | Worker | GeneralAttendee

  datatype MemberStatus = Active | Inactive | New

  /** A person. `None` stands for an absent property; for `assignedGDIId` it stands for both
      `undefined` and `null`. Dates are the stored `YYYY-MM-DD` strings. */
  datatype Member = Member(
    id: string,
    firstName: string,
    lastName: string,
    email: string,
    phone: string,
    birthDate: Option<string>,
    churchJoinDate: Option<string>,
    baptismDate: Option<string>,
    attendsLifeSchool: Option<bool>,
    attendsBibleInstitute: Option<bool>,
    fromAnotherChurch: Option<bool>,
    assignedGDIId: Option<string>,
    assignedAreaIds: Option<seq<string>>,
    status: MemberStatus,
    avatarUrl: Option<string>,
    roles: Option<seq<MemberRole>>)

  /** Record shape only: no operation of the model reads a ministry area. */
  datatype MinistryArea = MinistryArea(
    id: string, name: string, description: string, leaderId: string,
    memberIds: seq<string>, imageUrl: Option<string>)

  /** A small integration group ("Grupo de Integración") led by the member `guideId`. */
  datatype GDI = GDI(id: string, name: string, guideId: string, memberIds: seq<string>)

  datatype MeetingTargetRole = AllMembers | Workers | Leaders

  datatype DayOfWeek = Sunday | Monday | Tuesday | Wednesday | Thursday | Friday | Saturday

  datatype WeekOrdinal = First | Second | Third | Fourth | Last

  datatype MonthlyRuleType = DayOfMonth | DayOfWeekOfMonth

  datatype Frequency = OneTime | Weekly | Monthly

  /** A stored recurrence template; only the fields of its frequency are meaningful. */
  datatype MeetingSeries = MeetingSeries(
    id: string,
    name: string,
    description: Option<string>,
    defaultTime: string,
    defaultLocation: string,
    defaultImageUrl: Option<string>,
    targetAttendeeGroups: seq<MeetingTargetRole>,
    frequency: Frequency,
    oneTimeDate: Option<string>,
    weeklyDays: Option<seq<DayOfWeek>>,
    monthlyRuleType: Option<MonthlyRuleType>,
    monthlyDayOfMonth: Option<int>,
    monthlyWeekOrdinal: Option<WeekOrdinal>,
    monthlyDayOfWeek: Option<DayOfWeek>)

  /** Record shapes only (`Meeting`, `AttendanceRecord`, `Resource`): no operation of the
      model reads them. */
  datatype Meeting = Meeting(
    id: string, seriesId: string, name: string, date: string, time: string, location: string,
    description: Option<string>, imageUrl: Option<string>, attendeeUids: seq<string>,
    minute: Option<string>)

  datatype AttendanceRecord = AttendanceRecord(
    id: string, meetingId: string, memberId: string, attended: bool, notes: Option<string>)

  datatype ResourceKind = Article | Devotional | Announcement | SermonNotes

  datatype Resource = Resource(
    id: string, title: string, kind: ResourceKind, snippet: string, imageUrl: Option<string>,
    link: Option<string>)

  /** The value the GDI picker uses for "no GDI". No operation of the model reads it. */
  const NoneGdiOptionValue: string := "__NONE__"

  // ---------------------------------------------------------------------------------------
  // Form values and issues

  /** A date picked in a form (a JavaScript `Date`); the forms only ask whether one is there. */
  datatype Instant = Instant(epochMillis: int)

  datatype MemberForm = MemberForm(
    firstName: string,
    lastName: string,
    email: string,
    phone: string,
    birthDate: Option<Instant>,
    churchJoinDate: Option<Instant>,
    baptismDate: Option<string>,
    attendsLifeSchool: bool,
    attendsBibleInstitute: bool,
    fromAnotherChurch: bool,
    status: MemberStatus,
    avatarUrl: Option<string>,
    assignedGDIId: Option<string>,
    assignedAreaIds: Option<seq<string>>)

  datatype MinistryAreaForm = MinistryAreaForm(
    name: string, description: string, imageUrl: Option<string>, leaderId: string)

  datatype GdiForm = GdiForm(name: string, guideId: string)

  datatype SeriesForm = SeriesForm(
    name: string,
    description: Option<string>,
    defaultTime: string,
    defaultLocation: string,
    defaultImageUrl: Option<string>,
    targetAttendeeGroups: seq<MeetingTargetRole>,
    frequency: Frequency,
    oneTimeDate: Option<Instant>,
    weeklyDays: Option<seq<DayOfWeek>>,
    monthlyRuleType: Option<MonthlyRuleType>,
    monthlyDayOfMonth: Option<int>,
    monthlyWeekOrdinal: Option<WeekOrdinal>,
    monthlyDayOfWeek: Option<DayOfWeek>)

  datatype MeetingInstanceForm = MeetingInstanceForm(
    name: string, date: Option<Instant>, time: string, location: string,
    description: Option<string>, imageUrl: Option<string>)

  /** The form fields an issue can point at. */
  datatype Field =
    | FirstName | LastName | Phone | Name | Description | LeaderId | GuideId
    | DefaultTime | DefaultLocation | TargetAttendeeGroups
    | OneTimeDate | WeeklyDays | MonthlyRuleTypeField | MonthlyDayOfMonth | MonthlyWeekOrdinal | MonthlyDayOfWeek
    | Date | Time | Location

  /** The issue path under which the form library reports a field: its property name. */
  function PathName(f: Field): string {
    match f
    case FirstName => "firstName"
    case LastName => "lastName"
    case Phone => "phone"
    case Name => "name"
    case Description => "description"
    case LeaderId => "leaderId"
    case GuideId => "guideId"
    case DefaultTime => "defaultTime"
    case DefaultLocation => "defaultLocation"
    case TargetAttendeeGroups => "targetAttendeeGroups"
    case OneTimeDate => "oneTimeDate"
    case WeeklyDays => "weeklyDays"
    case MonthlyRuleTypeField => "monthlyRuleType"
    case MonthlyDayOfMonth => "monthlyDayOfMonth"
    case MonthlyWeekOrdinal => "monthlyWeekOrdinal"
    case MonthlyDayOfWeek => "monthlyDayOfWeek"
    case Date => "date"
    case Time => "time"
    case Location => "location"
  }

  /** One validation problem: the offending field and the message shown for it. */
  datatype Issue = Issue(path: Field, message: string)

  /** How many of `issues` concern `path`. */
  function CountAt(issues: seq<Issue>, path: Field): nat {
    if issues == [] then 0
    else (if issues[0].path == path then 1 else 0) + CountAt(issues[1..], path)
  }

  /** Some issue concerns `path`. */
  predicate HasIssueAt(issues: seq<Issue>, path: Field) {
    CountAt(issues, path) > 0
  }

  lemma {:induction false} CountAtAppend(a: seq<Issue>, b: seq<Issue>)
    ensures forall p :: CountAt(a + b, p) == CountAt(a, p) + CountAt(b, p)
  {
    if a != [] {
      assert (a + b)[1..] == a[1..] + b;
      CountAtAppend(a[1..], b);
    } else {
      assert a + b == b;
    }
  }

  lemma {:induction false} CountAtAbsent(issues: seq<Issue>, path: Field)
    requires forall i :: 0 <= i < |issues| ==> issues[i].path != path
    ensures CountAt(issues, path) == 0
  {
    if issues != [] {
      CountAtAbsent(issues[1..], path);
    }
  }

  lemma CountAtSingle(issue: Issue)
    ensures forall p :: CountAt([issue], p) == if issue.path == p then 1 else 0
  {
    forall p ensures CountAt([issue], p) == if issue.path == p then 1 else 0 {
      assert [issue][1..] == [];
    }
  }

  /** `ctx.addIssue(issue)` guarded by `fails`: the issue joins those found so far. */
  function AddIssueIf(issues: seq<Issue>, fails: bool, issue: Issue): (r: seq<Issue>)
    ensures |r| == |issues| + (if fails then 1 else 0)
    ensures forall p :: CountAt(r, p) == CountAt(issues, p) + (if fails && issue.path == p then 1 else 0)
    ensures fails ==> r == issues + [issue]
    ensures !fails ==> r == issues
  {
    if fails then
      CountAtAppend(issues, [issue]);
      CountAtSingle(issue);
      issues + [issue]
    else issues
  }

  const MsgFirstName := "El nombre debe tener al menos 2 caracteres."
  const MsgLastName := "El apellido debe tener al menos 2 caracteres."
  const MsgPhone := "El número de teléfono parece demasiado corto."
  const MsgAreaName := "Area name must be at least 3 characters."
  const MsgAreaDescription := "Description must be at least 10 characters."
  const MsgAreaLeader := "A leader must be selected."
  const MsgGdiName := "GDI name must be at least 3 characters."
  const MsgGdiGuide := "A guide must be selected."
  const MsgSeriesName := "El nombre de la serie debe tener al menos 3 caracteres."
  const MsgTimeFormat := "Formato de hora inválido (HH:MM)."
  const MsgDefaultLocation := "La ubicación por defecto es requerida."
  const MsgTargetGroups := "Debe seleccionar al menos un grupo de asistentes."
  const MsgNumberTooSmall := "Number must be greater than or equal to 1"
  const MsgNumberTooBig := "Number must be less than or equal to 31"
  const MsgOneTimeDate := "La fecha es requerida para reuniones de 'Única Vez'."
  const MsgWeeklyDays := "Debe seleccionar al menos un día para la frecuencia semanal."
  const MsgMonthlyRuleType := "Debe seleccionar un tipo de regla mensual."
  const MsgDayOfMonth := "El día del mes debe estar entre 1 y 31."
  const MsgWeekOrdinal := "Debe seleccionar la semana ordinal (ej. Primera, Última)."
  const MsgDayOfWeek := "Debe seleccionar el día de la semana (ej. Lunes, Martes)."
  const MsgMeetingName := "El nombre de la reunión debe tener al menos 3 caracteres."
  const MsgMeetingDate := "La fecha es requerida."
  const MsgMeetingLocation := "La ubicación es requerida."

  // ---------------------------------------------------------------------------------------
  // The HH:MM time pattern /^([01]\d|2[0-3]):([0-5]\d)$/

  /** The time pattern: two hour digits 00-19 or 20-23, a colon, two minute digits 00-59, and
      nothing else (the pattern is anchored at both ends and `\d` is an ASCII digit). */
  predicate IsValidTime(s: string): (r: bool)
    ensures r ==> |s| == 5 && s[2] == ':' && AllDigits(s[..2]) && AllDigits(s[3..])
    ensures r ==> DigitValue(s[0]) * 10 + DigitValue(s[1]) < 24 && DigitValue(s[3]) * 10 + DigitValue(s[4]) < 60
  {
    |s| == 5
    && (((s[0] == '0' || s[0] == '1') && IsDigit(s[1])) || (s[0] == '2' && '0' <= s[1] <= '3'))
    && s[2] == ':'
    && '0' <= s[3] <= '5' && IsDigit(s[4])
  }

  /** The two-digit, zero-padded numeral of `n`. */
  function TwoDigits(n: nat): (r: string)
    requires n < 100
    ensures |r| == 2 && AllDigits(r)
  {
    [DigitChar(n / 10), DigitChar(n % 10)]
  }

  /** The clock time `h:m` written as `HH:MM`. */
  function ClockTime(h: nat, m: nat): (r: string)
    requires h < 24 && m < 60
    ensures |r| == 5
  {
    TwoDigits(h) + ":" + TwoDigits(m)
  }

  function DigitValue(c: char): int {
    (c as int) - ('0' as int)
  }

  /** The pattern accepts exactly the clock times from 00:00 to 23:59. */
  lemma TimePatternIsClockTime(s: string)
    ensures IsValidTime(s) <==> exists h: nat, m: nat :: h < 24 && m < 60 && s == ClockTime(h, m)
  {
    if IsValidTime(s) {
      var h: nat := DigitValue(s[0]) * 10 + DigitValue(s[1]);
      var m: nat := DigitValue(s[3]) * 10 + DigitValue(s[4]);
      assert h / 10 == DigitValue(s[0]) && h % 10 == DigitValue(s[1]);
      assert m / 10 == DigitValue(s[3]) && m % 10 == DigitValue(s[4]);
      assert s == ClockTime(h, m);
    }
    forall h: nat, m: nat | h < 24 && m < 60 && s == ClockTime(h, m)
      ensures IsValidTime(s)
    {
      assert s[0] == DigitChar(h / 10) && s[1] == DigitChar(h % 10);
      assert s[3] == DigitChar(m / 10) && s[4] == DigitChar(m % 10);
    }
  }

  // ---------------------------------------------------------------------------------------
  // Member, ministry-area, GDI and meeting forms: `z.string().min(n, { message })` checks

  /** AddMemberFormSchema: minimum lengths of first name, last name and phone. */
  function MemberFormIssues(f: MemberForm): (r: seq<Issue>)
    ensures r == [] <==> |f.firstName| >= 2 && |f.lastName| >= 2 && |f.phone| >= 7
    ensures HasIssueAt(r, FirstName) <==> |f.firstName| < 2
    ensures HasIssueAt(r, LastName) <==> |f.lastName| < 2
    ensures HasIssueAt(r, Phone) <==> |f.phone| < 7
    ensures forall i :: 0 <= i < |r| ==> r[i].path in {FirstName, LastName, Phone}
  {
    var r := AddIssueIf([], |f.firstName| < 2, Issue(FirstName, MsgFirstName));
    var r := AddIssueIf(r, |f.lastName| < 2, Issue(LastName, MsgLastName));
    AddIssueIf(r, |f.phone| < 7, Issue(Phone, MsgPhone))
  }

  /** AddMinistryAreaFormSchema: minimum lengths of name, description and leader id. */
  function MinistryAreaFormIssues(f: MinistryAreaForm): (r: seq<Issue>)
    ensures r == [] <==> |f.name| >= 3 && |f.description| >= 10 && f.leaderId != ""
    ensures HasIssueAt(r, Name) <==> |f.name| < 3
    ensures HasIssueAt(r, Description) <==> |f.description| < 10
    ensures HasIssueAt(r, LeaderId) <==> f.leaderId == ""
  {
    var r := AddIssueIf([], |f.name| < 3, Issue(Name, MsgAreaName));
    var r := AddIssueIf(r, |f.description| < 10, Issue(Description, MsgAreaDescription));
    AddIssueIf(r, |f.leaderId| < 1, Issue(LeaderId, MsgAreaLeader))
  }

  /** AddGdiFormSchema: minimum lengths of name and guide id. */
  function GdiFormIssues(f: GdiForm): (r: seq<Issue>)
    ensures r == [] <==> |f.name| >= 3 && f.guideId != ""
    ensures HasIssueAt(r, Name) <==> |f.name| < 3
    ensures HasIssueAt(r, GuideId) <==> f.guideId == ""
  {
    var r := AddIssueIf([], |f.name| < 3, Issue(Name, MsgGdiName));
    AddIssueIf(r, |f.guideId| < 1, Issue(GuideId, MsgGdiGuide))
  }

  /** MeetingInstanceFormSchema: a name, a date, an HH:MM time and a location. */
  function MeetingInstanceFormIssues(f: MeetingInstanceForm): (r: seq<Issue>)
    ensures r == [] <==> |f.name| >= 3 && f.date.Some? && IsValidTime(f.time) && |f.location| >= 3
    ensures HasIssueAt(r, Name) <==> |f.name| < 3
    ensures HasIssueAt(r, Date) <==> f.date.None?
    ensures HasIssueAt(r, Time) <==> !IsValidTime(f.time)
    ensures HasIssueAt(r, Location) <==> |f.location| < 3
  {
    var r := AddIssueIf([], |f.name| < 3, Issue(Name, MsgMeetingName));
    var r := AddIssueIf(r, f.date.None?, Issue(Date, MsgMeetingDate));
    var r := AddIssueIf(r, !IsValidTime(f.time), Issue(Time, MsgTimeFormat));
    AddIssueIf(r, |f.location| < 3, Issue(Location, MsgMeetingLocation))
  }

  // ---------------------------------------------------------------------------------------
  // Meeting-series form: field checks

  /** The field-level checks of DefineMeetingSeriesFormSchema, in declaration order. The day
      of month is bounds-checked (`min(1).max(31)`, both bounds) whenever it is present,
      whatever the frequency. */
  function SeriesFieldIssues(d: SeriesForm): (r: seq<Issue>)
    ensures r == [] <==> |d.name| >= 3 && IsValidTime(d.defaultTime) && |d.defaultLocation| >= 3
                         && d.targetAttendeeGroups != []
                         && (d.monthlyDayOfMonth.Some? ==> 1 <= d.monthlyDayOfMonth.value <= 31)
    ensures HasIssueAt(r, Name) <==> |d.name| < 3
    ensures HasIssueAt(r, DefaultTime) <==> !IsValidTime(d.defaultTime)
    ensures HasIssueAt(r, DefaultLocation) <==> |d.defaultLocation| < 3
    ensures HasIssueAt(r, TargetAttendeeGroups) <==> d.targetAttendeeGroups == []
    ensures CountAt(r, MonthlyDayOfMonth)
            == if d.monthlyDayOfMonth.Some? && !(1 <= d.monthlyDayOfMonth.value <= 31) then 1 else 0
  {
    var head := SeriesTextIssues(d);
    var tail := DayOfMonthBoundIssues(d.monthlyDayOfMonth);
    CountAtAppend(head, tail);
    head + tail
  }

  /** The name, time, location and target-group checks of the series form, in field order. */
  function SeriesTextIssues(d: SeriesForm): (r: seq<Issue>)
    ensures r == [] <==> |d.name| >= 3 && IsValidTime(d.defaultTime) && |d.defaultLocation| >= 3
                         && d.targetAttendeeGroups != []
    ensures CountAt(r, Name) == if |d.name| < 3 then 1 else 0
    ensures CountAt(r, DefaultTime) == if IsValidTime(d.defaultTime) then 0 else 1
    ensures CountAt(r, DefaultLocation) == if |d.defaultLocation| < 3 then 1 else 0
    ensures CountAt(r, TargetAttendeeGroups) == if d.targetAttendeeGroups == [] then 1 else 0
    ensures CountAt(r, MonthlyDayOfMonth) == 0
  {
    var r := AddIssueIf([], |d.name| < 3, Issue(Name, MsgSeriesName));
    var r := AddIssueIf(r, !IsValidTime(d.defaultTime), Issue(DefaultTime, MsgTimeFormat));
    var r := AddIssueIf(r, |d.defaultLocation| < 3, Issue(DefaultLocation, MsgDefaultLocation));
    AddIssueIf(r, |d.targetAttendeeGroups| < 1, Issue(TargetAttendeeGroups, MsgTargetGroups))
  }

  /** `min(1).max(31)` on the day of month: at most one of the two bounds fails, and only
      when a day is present. */
  function DayOfMonthBoundIssues(day: Option<int>): (r: seq<Issue>)
    ensures forall p :: p != MonthlyDayOfMonth ==> CountAt(r, p) == 0
    ensures CountAt(r, MonthlyDayOfMonth) == if day.Some? && !(1 <= day.value <= 31) then 1 else 0
    ensures r == [] <==> day.None? || 1 <= day.value <= 31
  {
    var r := AddIssueIf([], day.Some? && day.value < 1, Issue(MonthlyDayOfMonth, MsgNumberTooSmall));
    AddIssueIf(r, day.Some? && day.value > 31, Issue(MonthlyDayOfMonth, MsgNumberTooBig))
  }

  // ---------------------------------------------------------------------------------------
  // Meeting-series form: the cross-field refinement

  /** The fields a frequency governs. */
  function FrequencyPaths(f: Frequency): set<Field> {
    match f
    case OneTime => {OneTimeDate}
    case Weekly => {WeeklyDays}
    case Monthly => {MonthlyRuleTypeField, MonthlyDayOfMonth, MonthlyWeekOrdinal, MonthlyDayOfWeek}
  }

  /** The OneTime block of the refinement. */
  function OneTimeIssues(d: SeriesForm): (r: seq<Issue>)
    ensures d.frequency != OneTime || d.oneTimeDate.Some? ==> r == []
    ensures d.frequency == OneTime && d.oneTimeDate.None? ==> r == [Issue(OneTimeDate, MsgOneTimeDate)]
  {
    AddIssueIf([], d.frequency == OneTime && d.oneTimeDate.None?, Issue(OneTimeDate, MsgOneTimeDate))
  }

  /** The Weekly block: a missing or empty day list is one issue. */
  function WeeklyIssues(d: SeriesForm): (r: seq<Issue>)
    ensures d.frequency != Weekly ==> r == []
    ensures |r| <= 1 && forall i :: 0 <= i < |r| ==> r[i].path == WeeklyDays
    ensures d.frequency == Weekly ==> (r != [] <==> d.weeklyDays.None? || d.weeklyDays.value == [])
  {
    var days := d.weeklyDays;
    AddIssueIf([], d.frequency == Weekly && (days.None? || |days.value| == 0),
               Issue(WeeklyDays, MsgWeeklyDays))
  }

  /** The Monthly block: without a rule type only that is reported; otherwise the rule type
      decides which of the remaining monthly fields are checked. */
  function MonthlyIssues(d: SeriesForm): (r: seq<Issue>)
    ensures d.frequency != Monthly ==> r == []
    ensures |r| <= 2
    ensures forall i :: 0 <= i < |r| ==> r[i].path in FrequencyPaths(Monthly)
  {
    if d.frequency != Monthly then []
    else
      match d.monthlyRuleType
      case None => AddIssueIf([], true, Issue(MonthlyRuleTypeField, MsgMonthlyRuleType))
      case Some(DayOfMonth) =>
        var day := d.monthlyDayOfMonth;
        AddIssueIf([], day.None? || day.value < 1 || day.value > 31,
                   Issue(MonthlyDayOfMonth, MsgDayOfMonth))
      case Some(DayOfWeekOfMonth) =>
        var r := AddIssueIf([], d.monthlyWeekOrdinal.None?, Issue(MonthlyWeekOrdinal, MsgWeekOrdinal));
        AddIssueIf(r, d.monthlyDayOfWeek.None?, Issue(MonthlyDayOfWeek, MsgDayOfWeek))
  }

  /** The refinement: its three frequency blocks run one after the other. */
  function RefineIssues(d: SeriesForm): (r: seq<Issue>)
    ensures |r| <= 2
    ensures forall i :: 0 <= i < |r| ==> r[i].path in FrequencyPaths(d.frequency)
  {
    OneTimeIssues(d) + WeeklyIssues(d) + MonthlyIssues(d)
  }

  /** DefineMeetingSeriesFormSchema as a whole: field issues, then refinement issues. */
  function ValidateSeriesForm(d: SeriesForm): (r: seq<Issue>)
    ensures forall p :: CountAt(r, p) == CountAt(SeriesFieldIssues(d), p) + CountAt(RefineIssues(d), p)
  {
    CountAtAppend(SeriesFieldIssues(d), RefineIssues(d));
    SeriesFieldIssues(d) + RefineIssues(d)
  }

  /** The series invariant: the fields the chosen frequency (and, for Monthly, rule type)
      needs are present and in range. */
  predicate ScheduleComplete(d: SeriesForm) {
    match d.frequency
    case OneTime => d.oneTimeDate.Some?
    case Weekly => d.weeklyDays.Some? && d.weeklyDays.value != []
    case Monthly =>
      match d.monthlyRuleType
      case None => false
      case Some(DayOfMonth) => d.monthlyDayOfMonth.Some? && 1 <= d.monthlyDayOfMonth.value <= 31
      case Some(DayOfWeekOfMonth) => d.monthlyWeekOrdinal.Some? && d.monthlyDayOfWeek.Some?
  }

  /** A series form that passes every check. */
  predicate SeriesFormValid(d: SeriesForm) {
    && |d.name| >= 3
    && IsValidTime(d.defaultTime)
    && |d.defaultLocation| >= 3
    && d.targetAttendeeGroups != []
    && (d.monthlyDayOfMonth.Some? ==> 1 <= d.monthlyDayOfMonth.value <= 31)
    && ScheduleComplete(d)
  }

  /** At most one frequency block contributes issues. */
  lemma OneFrequencyBlockReports(d: SeriesForm)
    ensures OneTimeIssues(d) != [] ==> WeeklyIssues(d) == [] && MonthlyIssues(d) == []
    ensures WeeklyIssues(d) != [] ==> OneTimeIssues(d) == [] && MonthlyIssues(d) == []
    ensures MonthlyIssues(d) != [] ==> OneTimeIssues(d) == [] && WeeklyIssues(d) == []
  {
  }

  /** The refinement reports nothing exactly when the schedule is complete. */
  lemma RefineAcceptsCompleteSchedules(d: SeriesForm)
    ensures RefineIssues(d) == [] <==> ScheduleComplete(d)
  {
  }

  /** The whole form reports nothing exactly when it is valid. */
  lemma ValidateSeriesFormAcceptsValid(d: SeriesForm)
    ensures ValidateSeriesForm(d) == [] <==> SeriesFormValid(d)
  {
    RefineAcceptsCompleteSchedules(d);
  }

  /** OneTime: one issue at oneTimeDate when the date is absent, none when it is present. */
  lemma OneTimeRule(d: SeriesForm)
    requires d.frequency == OneTime
    ensures d.oneTimeDate.None? ==> RefineIssues(d) == [Issue(OneTimeDate, MsgOneTimeDate)]
    ensures d.oneTimeDate.Some? ==> RefineIssues(d) == []
  {
  }

  /** Weekly: an issue at weeklyDays iff the day list is absent or empty, and nothing else. */
  lemma WeeklyRule(d: SeriesForm)
    requires d.frequency == Weekly
    ensures HasIssueAt(RefineIssues(d), WeeklyDays) <==> d.weeklyDays.None? || d.weeklyDays.value == []
    ensures |RefineIssues(d)| == CountAt(RefineIssues(d), WeeklyDays) <= 1
  {
    var r := RefineIssues(d);
    assert r == WeeklyIssues(d);
    if r != [] {
      assert r == [r[0]];
    }
  }

  /** Monthly without a rule type: exactly the rule-type issue, whatever the other fields hold. */
  lemma MonthlyWithoutRuleType(d: SeriesForm)
    requires d.frequency == Monthly && d.monthlyRuleType.None?
    ensures RefineIssues(d) == [Issue(MonthlyRuleTypeField, MsgMonthlyRuleType)]
  {
  }

  /** Monthly/DayOfMonth: an issue at monthlyDayOfMonth iff the day is missing or outside
      1..31, and no other issue. */
  lemma DayOfMonthRule(d: SeriesForm)
    requires d.frequency == Monthly && d.monthlyRuleType == Some(DayOfMonth)
    ensures HasIssueAt(RefineIssues(d), MonthlyDayOfMonth)
            <==> d.monthlyDayOfMonth.None? || !(1 <= d.monthlyDayOfMonth.value <= 31)
    ensures |RefineIssues(d)| == CountAt(RefineIssues(d), MonthlyDayOfMonth) <= 1
  {
    assert RefineIssues(d) == MonthlyIssues(d);
  }

  /** Monthly/DayOfWeekOfMonth: the ordinal and the weekday are checked independently, so 0, 1
      or 2 issues result. */
  lemma DayOfWeekOfMonthRule(d: SeriesForm)
    requires d.frequency == Monthly && d.monthlyRuleType == Some(DayOfWeekOfMonth)
    ensures HasIssueAt(RefineIssues(d), MonthlyWeekOrdinal) <==> d.monthlyWeekOrdinal.None?
    ensures HasIssueAt(RefineIssues(d), MonthlyDayOfWeek) <==> d.monthlyDayOfWeek.None?
    ensures |RefineIssues(d)| == (if d.monthlyWeekOrdinal.None? then 1 else 0)
                                 + (if d.monthlyDayOfWeek.None? then 1 else 0)
  {
    assert RefineIssues(d) == MonthlyIssues(d);
  }

  /** The fields governed by the frequency of `d` hold the same values in `e`. */
  predicate SameScheduleFields(d: SeriesForm, e: SeriesForm) {
    && d.frequency == e.frequency
    && match d.frequency
       case OneTime => d.oneTimeDate == e.oneTimeDate
       case Weekly => d.weeklyDays == e.weeklyDays
       case Monthly =>
         && d.monthlyRuleType == e.monthlyRuleType
         && d.monthlyDayOfMonth == e.monthlyDayOfMonth
         && d.monthlyWeekOrdinal == e.monthlyWeekOrdinal
         && d.monthlyDayOfWeek == e.monthlyDayOfWeek
  }

  /** Fields that belong to another frequency never change what the refinement reports. */
  lemma RefineIgnoresOtherFrequencies(d: SeriesForm, e: SeriesForm)
    requires SameScheduleFields(d, e)
    ensures RefineIssues(d) == RefineIssues(e)
  {
  }

  /** The bounds on the day of month are also a field check: a leftover out-of-range day is
      reported on a series of another frequency, although the refinement ignores it. */
  lemma LeftoverDayOfMonthIsReported(d: SeriesForm)
    requires d.frequency != Monthly && d.monthlyDayOfMonth.Some?
    requires !(1 <= d.monthlyDayOfMonth.value <= 31)
    ensures !HasIssueAt(RefineIssues(d), MonthlyDayOfMonth)
    ensures CountAt(ValidateSeriesForm(d), MonthlyDayOfMonth) == 1
  {
    var r := RefineIssues(d);
    assert MonthlyDayOfMonth !in FrequencyPaths(d.frequency);
    CountAtAbsent(r, MonthlyDayOfMonth);
  }

  /** A Monthly/DayOfMonth series with an out-of-range day gets two issues at that field: the
      bound check and the refinement's own. */
  lemma OutOfRangeDayReportedTwice(d: SeriesForm)
    requires d.frequency == Monthly && d.monthlyRuleType == Some(DayOfMonth)
    requires d.monthlyDayOfMonth.Some? && !(1 <= d.monthlyDayOfMonth.value <= 31)
    ensures CountAt(ValidateSeriesForm(d), MonthlyDayOfMonth) == 2
  {
    var refine := RefineIssues(d);
    assert refine == [Issue(MonthlyDayOfMonth, MsgDayOfMonth)] by {
      assert OneTimeIssues(d) == [] && WeeklyIssues(d) == [];
      assert MonthlyIssues(d) == [Issue(MonthlyDayOfMonth, MsgDayOfMonth)];
    }
    CountAtSingle(refine[0]);
  }

  // ---------------------------------------------------------------------------------------
  // Option tables shown by the forms

  const DaysOfWeek: seq<(DayOfWeek, string)> := [
    (Sunday, "Domingo"), (Monday, "Lunes"), (Tuesday, "Martes"), (Wednesday, "Miércoles"),
    (Thursday, "Jueves"), (Friday, "Viernes"), (Saturday, "Sábado")]

  const WeekOrdinals: seq<(WeekOrdinal, string)> := [
    (First, "Primera"), (Second, "Segunda"), (Third, "Tercera"), (Fourth, "Cuarta"), (Last, "Última")]

  function TableIds<T>(table: seq<(T, string)>): (ids: seq<T>)
    ensures |ids| == |table| && forall i :: 0 <= i < |table| ==> ids[i] == table[i].0
  {
    seq(|table|, i requires 0 <= i < |table| => table[i].0)
  }

  /** Each weekday is offered exactly once, Sunday first, and no two share a label. */
  lemma DaysOfWeekTableIsComplete()
    ensures |DaysOfWeek| == 7 && DaysOfWeek[0].0 == Sunday
    ensures forall d: DayOfWeek :: d in TableIds(DaysOfWeek)
    ensures forall i, j :: 0 <= i < j < |DaysOfWeek| ==>
              DaysOfWeek[i].0 != DaysOfWeek[j].0 && DaysOfWeek[i].1 != DaysOfWeek[j].1
  {
    var ids := TableIds(DaysOfWeek);
    forall d: DayOfWeek ensures d in ids {
      var i := match d
        case Sunday => 0 case Monday => 1 case Tuesday => 2 case Wednesday => 3
        case Thursday => 4 case Friday => 5 case Saturday => 6;
      assert ids[i] == d;
    }
  }

  /** Each ordinal is offered exactly once and no two share a label. */
  lemma WeekOrdinalsTableIsComplete()
    ensures |WeekOrdinals| == 5
    ensures forall w: WeekOrdinal :: w in TableIds(WeekOrdinals)
    ensures forall i, j :: 0 <= i < j < |WeekOrdinals| ==>
              WeekOrdinals[i].0 != WeekOrdinals[j].0 && WeekOrdinals[i].1 != WeekOrdinals[j].1
  {
    var ids := TableIds(WeekOrdinals);
    forall w: WeekOrdinal ensures w in ids {
      var i := match w case First => 0 case Second => 1 case Third => 2 case Fourth => 3 case Last => 4;
      assert ids[i] == w;
    }
  }
}
