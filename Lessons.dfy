/** One lesson record of the schedule service and the helpers that turn its
    fields into what a lesson card shows: the full name of the lesson type
    and the room label with the campus address. */
module Lessons {
  import opened Text

  /** A lesson as the schedule service returns it; every field is text. */
  datatype ScheduleItem = ScheduleItem(
    kf: string,       // end time, shown under the start time
    nf: string,       // start time
    number: string,   // room code, possibly with a campus prefix
    subject: string,
    teacher: string,
    kind: string,     // the record's `type`: comma-separated type annotations
    xdt: string       // the lesson's date, the grouping key
  )

  const Lecture := "Лек"
  const Practice := "Прак"
  const LectureName := "Лекция"
  const PracticeName := "Практическое занятие"

  /** `getFullTypeName`: the two known abbreviations become full names; every
      other type text is passed through as it is. */
  function FullTypeName(t: string): (r: string)
    ensures t == Lecture ==> r == LectureName
    ensures t == Practice ==> r == PracticeName
    ensures t != Lecture && t != Practice ==> r == t
  {
    if t == Lecture then LectureName
    else if t == Practice then PracticeName
    else t
  }

  /** Only the two abbreviations are changed: every other text is a fixed point. */
  lemma FullTypeNameChanges(t: string)
    ensures FullTypeName(t) != t <==> t == Lecture || t == Practice
  {
    assert LectureName != Lecture && PracticeName != Practice;
  }

  /** Expanding a type name a second time changes nothing. */
  lemma FullTypeNameIdempotent(t: string)
    ensures FullTypeName(FullTypeName(t)) == FullTypeName(t)
  {
    assert LectureName != Lecture && LectureName != Practice;
    assert PracticeName != Lecture && PracticeName != Practice;
  }

  /** The type name a lesson card shows: the full name of the segment of the
      record's type text before its first comma. */
  /** The card shows the lecture name exactly when the first segment of the type
      text is the lecture abbreviation or already the full name; likewise for
      practice; any other first segment is shown as it is. */
  function TypeLabel(kind: string): (r: string)
    ensures r == LectureName <==>
      BeforeFirst(kind, ',') == Lecture || BeforeFirst(kind, ',') == LectureName
    ensures r == PracticeName <==>
      BeforeFirst(kind, ',') == Practice || BeforeFirst(kind, ',') == PracticeName
    ensures BeforeFirst(kind, ',') != Lecture && BeforeFirst(kind, ',') != Practice ==>
      r == BeforeFirst(kind, ',')
  {
    assert LectureName != PracticeName;
    FullTypeName(BeforeFirst(kind, ','))
  }

  /** A type text without a comma is expanded as a whole, and text after the
      first comma never changes the label. */
  lemma TypeLabelSpec(kind: string, rest: string)
    ensures ',' !in kind ==> TypeLabel(kind) == FullTypeName(kind)
    ensures ',' !in kind ==> TypeLabel(kind + "," + rest) == TypeLabel(kind)
  {
    if ',' !in kind {
      BeforeFirstOf(kind, [], ',');
      assert kind + [] == kind;
      BeforeFirstOf(kind, "," + rest, ',');
      assert kind + ("," + rest) == kind + "," + rest;
    }
  }

  /** Campus address and room number, as `getAddressAndRoom` returns them */
  datatype Place = Place(address: string, roomNumber: string)

  const Pushkina8Prefix := "П8-"
  const Pushkina10Prefix := "СО"
  const Pushkina10Marker := "СО "
  const Pushkina8 := "Пушкина 8"
  const Pushkina10 := "Пушкина 10"

  /** `getAddressAndRoom`: the campus prefix of the room code selects the
      address; the first occurrence of the campus marker is cut out of the code. */
  function AddressAndRoom(room: string): (r: Place)
    ensures r.address == Pushkina8 <==> StartsWith(room, Pushkina8Prefix)
    ensures r.address == Pushkina10 <==> StartsWith(room, Pushkina10Prefix)
    ensures r.address == "" <==>
      !StartsWith(room, Pushkina8Prefix) && !StartsWith(room, Pushkina10Prefix)
    ensures r.address == "" ==> r.roomNumber == room
  {
    CampusPrefixesExclusive(room);
    if StartsWith(room, Pushkina8Prefix) then
      Place(Pushkina8, ReplaceFirst(room, Pushkina8Prefix, ""))
    else if StartsWith(room, Pushkina10Prefix) then
      Place(Pushkina10, ReplaceFirst(room, Pushkina10Marker, ""))
    else
      Place("", room)
  }

  /** The two campus prefixes differ in their first character, so no room code
      has both. */
  lemma CampusPrefixesExclusive(room: string)
    ensures !(StartsWith(room, Pushkina8Prefix) && StartsWith(room, Pushkina10Prefix))
  {
    if |room| >= 3 {
      assert room[..3][0] == room[0] == room[..2][0];
    }
  }

  /** A room code with the first campus prefix: the address is the first campus
      and the room number is the code after the prefix, which together with the
      prefix gives the code back. */
  lemma Pushkina8Room(room: string)
    requires StartsWith(room, Pushkina8Prefix)
    ensures AddressAndRoom(room).address == Pushkina8
    ensures AddressAndRoom(room).roomNumber == room[|Pushkina8Prefix|..]
    ensures room == Pushkina8Prefix + AddressAndRoom(room).roomNumber
  {
    assert OccursAt(room, Pushkina8Prefix, 0);
  }

  /** A room code with the second campus prefix: the address is the second campus
      and the first occurrence of the marker (the prefix and a space), wherever
      it stands, is cut out; reinserting it there gives the code back; without
      an occurrence the code is kept as it is. */
  lemma Pushkina10Room(room: string)
    requires StartsWith(room, Pushkina10Prefix)
    ensures AddressAndRoom(room).address == Pushkina10
    ensures IndexOf(room, Pushkina10Marker).None? ==> AddressAndRoom(room).roomNumber == room
    ensures IndexOf(room, Pushkina10Marker).Some? ==>
      var i := IndexOf(room, Pushkina10Marker).value;
      var n := AddressAndRoom(room).roomNumber;
      i <= |n| && room == n[..i] + Pushkina10Marker + n[i..] &&
      forall j :: 0 <= j < i ==> !OccursAt(room, Pushkina10Marker, j)
    ensures StartsWith(room, Pushkina10Marker) ==>
      AddressAndRoom(room).roomNumber == room[|Pushkina10Marker|..]
  {
    CampusPrefixesExclusive(room);
    match IndexOf(room, Pushkina10Marker)
    case None =>
    case Some(i) =>
      var n := AddressAndRoom(room).roomNumber;
      assert n == room[..i] + room[i + 3..];
      assert n[..i] == room[..i];
      assert n[i..] == room[i + 3..];
      assert room == room[..i] + room[i..i + 3] + room[i + 3..];
    if StartsWith(room, Pushkina10Marker) {
      assert OccursAt(room, Pushkina10Marker, 0);
    }
  }

  const RoomCaption := "Аудитория "

  /** The room line of a lesson card: the fixed caption, then the room number
      between the caption and a comma, and the address at the end. */
  function RoomLabel(room: string): (r: string)
    ensures var p := AddressAndRoom(room);
      |r| == |RoomCaption| + |p.roomNumber| + 2 + |p.address| &&
      StartsWith(r, RoomCaption) &&
      r[|RoomCaption|..|r| - |p.address|] == p.roomNumber + ", " &&
      r[|r| - |p.address|..] == p.address
  {
    var p := AddressAndRoom(room);
    var r := RoomCaption + p.roomNumber + ", " + p.address;
    assert r[..|RoomCaption|] == RoomCaption;
    assert r[|RoomCaption|..|r| - |p.address|] == p.roomNumber + ", ";
    assert r[|r| - |p.address|..] == p.address;
    r
  }

  /** The room line for each kind of room code: an unrecognised code is shown as
      it is, followed by an empty address; a code of the first campus loses its
      prefix; a code of the second campus shows the code with the campus marker
      cut out, and the second campus's address. */
  lemma RoomLabelShape(room: string)
    ensures !StartsWith(room, Pushkina8Prefix) && !StartsWith(room, Pushkina10Prefix) ==>
      RoomLabel(room) == RoomCaption + room + ", "
    ensures StartsWith(room, Pushkina8Prefix) ==>
      RoomLabel(room) == RoomCaption + room[|Pushkina8Prefix|..] + ", " + Pushkina8
    ensures StartsWith(room, Pushkina10Prefix) ==>
      RoomLabel(room) == RoomCaption + ReplaceFirst(room, Pushkina10Marker, "") + ", " + Pushkina10
  {
    if StartsWith(room, Pushkina8Prefix) {
      Pushkina8Room(room);
    }
    CampusPrefixesExclusive(room);
  }

  /** What one lesson card of the schedule screen is given */
  datatype LessonCard = LessonCard(
    startTime: string,
    endTime: string,
    typeName: string,
    subject: string,
    roomLine: string
  )

  /** The card composed for one lesson record */
  function CardFor(lesson: ScheduleItem): (c: LessonCard)
    ensures c.startTime == lesson.nf && c.endTime == lesson.kf && c.subject == lesson.subject
  {
    LessonCard(lesson.nf, lesson.kf, TypeLabel(lesson.kind), lesson.subject, RoomLabel(lesson.number))
  }

  /** The card's type line is the expanded first type segment and its room line
      names the campus recognised from the room code. */
  lemma CardForSpec(lesson: ScheduleItem)
    ensures var c := CardFor(lesson);
      var seg := BeforeFirst(lesson.kind, ',');
      (c.typeName == LectureName <==> seg in {Lecture, LectureName}) &&
      (c.typeName == PracticeName <==> seg in {Practice, PracticeName}) &&
      (seg !in {Lecture, Practice} ==> c.typeName == seg)
    ensures var c := CardFor(lesson);
      (StartsWith(lesson.number, Pushkina8Prefix) ==>
        c.roomLine == RoomCaption + lesson.number[|Pushkina8Prefix|..] + ", " + Pushkina8) &&
      (StartsWith(lesson.number, Pushkina10Prefix) ==>
        c.roomLine == RoomCaption + AddressAndRoom(lesson.number).roomNumber + ", " + Pushkina10) &&
      (!StartsWith(lesson.number, Pushkina8Prefix) && !StartsWith(lesson.number, Pushkina10Prefix) ==>
        c.roomLine == RoomCaption + lesson.number + ", ")
  {
    RoomLabelShape(lesson.number);
  }
}
