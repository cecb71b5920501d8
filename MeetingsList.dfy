/** The meetings list: which meetings the title search and the
    all/recent/upcoming mode keep, and the display names of statuses. */
module MeetingsList {
  import opened Seqs
  import opened Text

  /** A meeting of the list; `date` is in milliseconds since the epoch. */
  datatype Meeting = Meeting(id: string, title: string, date: int, participants: seq<string>, status: string)

  /** The `filter` property: "all", "recent" or "upcoming". */
  datatype FilterMode = All | Recent | Upcoming

  /** The built-in development data of the list. */
  const MockMeetings: seq<Meeting> := [
    Meeting("1", "Еженедельная встреча команды", 1684144800000,
      ["Иван Иванов", "Мария Петрова", "Алексей Сидоров"], "completed"),
    Meeting("2", "Планирование продукта", 1684420200000,
      ["Мария Петрова", "Анна Кузнецова", "Дмитрий Волков"], "scheduled"),
    Meeting("3", "Презентация для клиента", 1684573200000,
      ["Иван Иванов", "Алексей Сидоров", "Елена Смирнова"], "scheduled")
  ]

  /** The callback given to `filter`: a non-empty query that the lowercased
      title does not contain rejects the meeting; then "recent" keeps dates
      before `now`, "upcoming" dates after it, and "all" everything. */
  predicate KeepMeeting(meeting: Meeting, searchQuery: string, mode: FilterMode, now: int) {
    if searchQuery != "" && !Contains(Lower(meeting.title), Lower(searchQuery)) then false
    else if mode == Recent then meeting.date < now
    else if mode == Upcoming then meeting.date > now
    else true
  }

  function Keep(searchQuery: string, mode: FilterMode, now: int): Meeting -> bool {
    meeting => KeepMeeting(meeting, searchQuery, mode, now)
  }

  /** `filteredMeetings`. */
  function FilteredMeetings(meetings: seq<Meeting>, searchQuery: string, mode: FilterMode, now: int): seq<Meeting> {
    Filter(meetings, Keep(searchQuery, mode, now))
  }

  /** The title condition: an empty query imposes none. */
  predicate TitleMatches(meeting: Meeting, searchQuery: string) {
    searchQuery == "" || Contains(Lower(meeting.title), Lower(searchQuery))
  }

  /** The date condition of each mode, strict on both sides of `now`. */
  predicate DateMatches(meeting: Meeting, mode: FilterMode, now: int) {
    match mode
    case All => true
    case Recent => meeting.date < now
    case Upcoming => meeting.date > now
  }

  /** The filtered list keeps, in their order, every occurrence of the
      meetings that satisfy both the title and the date condition, and
      nothing else. */
  lemma FilteredMeetingsSpec(meetings: seq<Meeting>, searchQuery: string, mode: FilterMode, now: int)
    ensures IsSubsequence(FilteredMeetings(meetings, searchQuery, mode, now), meetings)
    ensures forall m :: multiset(FilteredMeetings(meetings, searchQuery, mode, now))[m] ==
                          if TitleMatches(m, searchQuery) && DateMatches(m, mode, now) then multiset(meetings)[m] else 0
  {
    var keep := Keep(searchQuery, mode, now);
    FilterIsSubsequence(meetings, keep);
    forall m ensures multiset(Filter(meetings, keep))[m] ==
      if TitleMatches(m, searchQuery) && DateMatches(m, mode, now) then multiset(meetings)[m] else 0
    {
      FilterCount(meetings, keep, m);
    }
  }

  /** No meeting is both recent and upcoming, whatever the two queries; a
      meeting dated exactly `now` is neither. */
  lemma RecentAndUpcomingDisjoint(meetings: seq<Meeting>, q1: string, q2: string, now: int)
    ensures forall m :: m in FilteredMeetings(meetings, q1, Recent, now) ==> m !in FilteredMeetings(meetings, q2, Upcoming, now)
    ensures forall m: Meeting :: m.date == now ==>
                m !in FilteredMeetings(meetings, q1, Recent, now) && m !in FilteredMeetings(meetings, q2, Upcoming, now)
  {
  }

  /** The "all" mode applies the title search alone; with an empty query it
      keeps the whole list. */
  lemma AllIsTitleSearchOnly(meetings: seq<Meeting>, searchQuery: string, now: int)
    ensures FilteredMeetings(meetings, searchQuery, All, now) == Filter(meetings, (m: Meeting) => TitleMatches(m, searchQuery))
    ensures FilteredMeetings(meetings, "", All, now) == meetings
  {
    FilterCongruent(meetings, Keep(searchQuery, All, now), (m: Meeting) => TitleMatches(m, searchQuery));
    FilterKeepsAll(meetings, Keep("", All, now));
  }

  /** On the built-in data, seen on 19 May 2023, "recent" lists the first
      two meetings and "upcoming" the third. */
  lemma MockMeetingsOnMay19()
    ensures FilteredMeetings(MockMeetings, "", Recent, 1684497600000) == [MockMeetings[0], MockMeetings[1]]
    ensures FilteredMeetings(MockMeetings, "", Upcoming, 1684497600000) == [MockMeetings[2]]
  {
    var m := MockMeetings;
    assert m == [m[0], m[1], m[2]];
    FilterOfThree(m[0], m[1], m[2], Keep("", Recent, 1684497600000));
    FilterOfThree(m[0], m[1], m[2], Keep("", Upcoming, 1684497600000));
  }

  /** The display names of the known statuses. */
  const StatusNames: map<string, string> := map[
    "completed" := "Завершена",
    "scheduled" := "Запланирована",
    "in-progress" := "В процессе",
    "cancelled" := "Отменена"
  ]

  /** `getStatusTranslation`: a known status gets its display name, any
      other string is returned as it is. */
  function StatusTranslation(status: string): (r: string)
    ensures status in StatusNames ==> r == StatusNames[status]
    ensures status !in StatusNames ==> r == status
  {
    match status
    case "completed" => "Завершена"
    case "scheduled" => "Запланирована"
    case "in-progress" => "В процессе"
    case "cancelled" => "Отменена"
    case _ => status
  }

  /** The translation changes a status exactly when it is a known one, and
      turns it into a display name, which is not itself a known status:
      translating a display name again leaves it as it is. */
  lemma StatusTranslationFixedPoints(status: string)
    ensures StatusTranslation(status) == status <==> status !in StatusNames
    ensures status in StatusNames ==>
      StatusTranslation(status) in StatusNames.Values && StatusTranslation(status) !in StatusNames &&
      StatusTranslation(StatusTranslation(status)) == StatusTranslation(status)
  {
    assert StatusNames.Keys == {"completed", "scheduled", "in-progress", "cancelled"};
    if status in StatusNames {
      var name := StatusTranslation(status);
      assert name in {"Завершена", "Запланирована", "В процессе", "Отменена"};
      assert name[0] in {'З', 'В', 'О'};
      assert status[0] in {'c', 's', 'i'};
      assert name !in StatusNames;
    }
  }

  /** Distinct statuses get distinct names, except where an unknown status
      is spelled like the display name of a known one. */
  lemma StatusTranslationInjective(s1: string, s2: string)
    requires s1 != s2
    requires s1 !in StatusNames.Values && s2 !in StatusNames.Values
    ensures StatusTranslation(s1) != StatusTranslation(s2)
  {
    assert StatusNames["completed"] == "Завершена";
    assert StatusNames["scheduled"] == "Запланирована";
    assert StatusNames["in-progress"] == "В процессе";
    assert StatusNames["cancelled"] == "Отменена";
  }
}
