/** `Math.round` of a quotient, in exact integer arithmetic. */
module Rounding {
  /**
   * Math.round(num / den) for den > 0: the integer nearest to num / den,
   * halves rounded up, which is floor((2 num + den) / (2 den)).
   */
  function RoundHalfUp(num: int, den: int): (r: int)
    requires den > 0
    ensures 2 * den * r <= 2 * num + den < 2 * den * (r + 1)
  {
    (2 * num + den) / (2 * den)
  }

  lemma MulCancel(c: int, x: int, y: int)
    requires c > 0 && c * x < c * y
    ensures x < y
  {
  }

  /** Rounding is monotone, so bounds on the quotient carry over. */
  lemma RoundHalfUpBounds(num: int, den: int, lo: int, hi: int)
    requires den > 0
    requires lo * den <= num <= hi * den
    ensures lo <= RoundHalfUp(num, den) <= hi
  {
    var r := RoundHalfUp(num, den);
    assert (2 * den) * lo < (2 * den) * (r + 1);
    MulCancel(2 * den, lo, r + 1);
    assert (2 * den) * r < (2 * den) * (hi + 1);
    MulCancel(2 * den, r, hi + 1);
  }
}

/**
 * The absences report (src/pages/Absences.tsx): one summary per attendable
 * occurrence, the 75 % threshold badge, the per-participant detail table
 * and the CSV text of the export.
 */
module Absences {
  import opened Wrappers
  import opened Types
  import opened Seqs
  import opened Occurrences
  import opened Rounding

  const AttendanceThreshold: int := 75

  /** One row of `eventSummaries`. */
  datatype Summary = Summary(
    occurrence: Occurrence,
    presentCount: nat,
    absentCount: int,
    totalParticipants: nat,
    percentage: int)

  /** 0 for an empty roster, otherwise Math.round(present / total * 100). */
  function Percentage(present: nat, total: nat): (pct: int)
    ensures total == 0 ==> pct == 0
    ensures total > 0 ==> 2 * total * pct <= 200 * present + total < 2 * total * (pct + 1)
    ensures present <= total ==> 0 <= pct <= 100
  {
    if total == 0 then 0
    else if present <= total then
      RoundHalfUpBounds(100 * present, total, 0, 100);
      RoundHalfUp(100 * present, total)
    else RoundHalfUp(100 * present, total)
  }

  /**
   * The summary of one occurrence: present records for it counted against
   * the whole roster, everyone else counted absent.
   */
  function Summarize(o: Occurrence, records: seq<AttendanceRecord>, participants: seq<Participant>): (s: Summary)
    ensures s.occurrence == o && s.totalParticipants == |participants|
    ensures s.presentCount == PresentCount(RecordsFor(records, o.id))
    ensures s.presentCount + s.absentCount == s.totalParticipants
    ensures s.presentCount <= |RecordsFor(records, o.id)|
    ensures s.presentCount == 0 <==> forall x :: x in records && x.eventId == o.id ==> !x.isPresent
    ensures s.percentage == Percentage(s.presentCount, s.totalParticipants)
    ensures s.presentCount <= s.totalParticipants ==> s.absentCount >= 0 && 0 <= s.percentage <= 100
  {
    var present := PresentCount(RecordsFor(records, o.id));
    var total := |participants|;
    Summary(o, present, total - present, total, Percentage(present, total))
  }

  /** `eventSummaries`: one summary per attendable occurrence, in catalogue order. */
  function EventSummaries(events: seq<Event>, classes: seq<WeeklyClass>,
                          records: seq<AttendanceRecord>, participants: seq<Participant>): (r: seq<Summary>)
    ensures |r| == |AttendableOccurrences(events, classes)|
    ensures forall i :: 0 <= i < |r| ==>
              r[i].occurrence == AttendableOccurrences(events, classes)[i] &&
              r[i] == Summarize(r[i].occurrence, records, participants)
  {
    var occurrences := AttendableOccurrences(events, classes);
    seq(|occurrences|, i requires 0 <= i < |occurrences| => Summarize(occurrences[i], records, participants))
  }

  /**
   * The success badge, shown when the percentage reaches the threshold; for
   * a summary of a non-empty roster that is exactly when
   * 200 * present >= 149 * total.
   */
  predicate MeetsThreshold(s: Summary): (meets: bool)
    ensures s.totalParticipants > 0 && s.percentage == Percentage(s.presentCount, s.totalParticipants) ==>
              (meets <==> 200 * s.presentCount >= 149 * s.totalParticipants)
  {
    if s.totalParticipants > 0 then
      ThresholdExact(s.presentCount, s.totalParticipants);
      s.percentage >= AttendanceThreshold
    else s.percentage >= AttendanceThreshold
  }

  /** An occurrence's badge, stated through its records: present share of at least 74.5 %. */
  lemma SummaryMeetsThreshold(o: Occurrence, records: seq<AttendanceRecord>, participants: seq<Participant>)
    requires |participants| > 0
    ensures MeetsThreshold(Summarize(o, records, participants)) <==>
              200 * PresentCount(RecordsFor(records, o.id)) >= 149 * |participants|
  {
  }

  /**
   * Ten participants and three present records for the occurrence: three
   * present, seven absent, 30 %, below the threshold.
   */
  lemma SummaryExample(o: Occurrence, participants: seq<Participant>, a: AttendanceRecord, b: AttendanceRecord,
                       c: AttendanceRecord)
    requires |participants| == 10
    requires a.eventId == o.id && b.eventId == o.id && c.eventId == o.id
    requires a.isPresent && b.isPresent && c.isPresent
    ensures var s := Summarize(o, [a, b, c], participants);
            s.presentCount == 3 && s.absentCount == 7 && s.percentage == 30 && !MeetsThreshold(s)
  {
    ThreePresentRecords(o, a, b, c);
    assert Percentage(3, 10) == 30;
  }

  lemma ThreePresentRecords(o: Occurrence, a: AttendanceRecord, b: AttendanceRecord, c: AttendanceRecord)
    requires a.eventId == o.id && b.eventId == o.id && c.eventId == o.id
    requires a.isPresent && b.isPresent && c.isPresent
    ensures PresentCount(RecordsFor([a, b, c], o.id)) == 3
  {
    var rs := [a, b, c];
    FilterKeepsAll(rs, ForEvent(o.id));
    assert [a] + [b, c] == rs && [b] + [c] == [b, c];
    PresentCountConcat([a], [b, c]);
    PresentCountConcat([b], [c]);
    PresentCountSingle(a);
    PresentCountSingle(b);
    PresentCountSingle(c);
  }

  /**
   * Exact form of the badge: for a non-empty roster an occurrence meets the
   * threshold exactly when 200 * present >= 149 * total, so 75 % itself
   * meets it and 74.5 % (rounded up to 75) does too.
   */
  lemma {:induction false} ThresholdExact(present: nat, total: nat)
    requires total > 0
    ensures Percentage(present, total) >= AttendanceThreshold <==> 200 * present >= 149 * total
  {
    var pct := Percentage(present, total);
    if pct >= 75 {
      MulLeft(2 * total, 75, pct);
    }
    if 200 * present >= 149 * total {
      assert (2 * total) * 75 < (2 * total) * (pct + 1);
      MulCancel(2 * total, 75, pct + 1);
    }
  }

  lemma MulLeft(c: int, x: int, y: int)
    requires c > 0 && x <= y
    ensures c * x <= c * y
  {
  }

  /** The participant ids of a list of records, in order. */
  function RecordParticipants(records: seq<AttendanceRecord>): seq<string> {
    Map(records, (x: AttendanceRecord) => x.participantId)
  }

  /**
   * The counts and the percentage are in range when the occurrence has at
   * most one record per participant and only records of roster members;
   * nothing in the report itself enforces this.
   */
  lemma {:induction false} SummaryInRange(o: Occurrence, records: seq<AttendanceRecord>, participants: seq<Participant>)
    requires Distinct(RecordParticipants(RecordsFor(records, o.id)))
    requires forall x :: x in RecordsFor(records, o.id) ==> x.participantId in ParticipantIds(participants)
    ensures var s := Summarize(o, records, participants);
            s.presentCount <= s.totalParticipants && s.absentCount >= 0 && 0 <= s.percentage <= 100
  {
    var forEvent := RecordsFor(records, o.id);
    var ids := RecordParticipants(forEvent);
    forall id | id in ids ensures id in ParticipantIds(participants) {
      var k :| 0 <= k < |ids| && ids[k] == id;
      assert forEvent[k] in forEvent;
    }
    DistinctLengthBound(ids, ParticipantIds(participants));
  }

  /** Duplicate present records push the report past 100 % and below zero absences. */
  lemma DuplicatesOverflowSummary(o: Occurrence, p: Participant, x: AttendanceRecord)
    requires x.eventId == o.id && x.isPresent
    ensures var s := Summarize(o, [x, x], [p]);
            s.presentCount == 2 && s.absentCount == -1 && s.percentage == 200
  {
    var forEvent := RecordsFor([x, x], o.id);
    assert forEvent == [x, x];
    assert Filter(forEvent, IsPresentRecord) == [x, x];
  }

  /** What the detail table and the CSV show for one participant. */
  datatype ParticipantLine = ParticipantLine(
    name: string,
    isPresent: bool,
    status: Status,
    checkIn: Option<string>)

  /**
   * The line of one participant, read from the first of the occurrence's
   * records that names them; without one: not present, 'Not Marked', no time.
   */
  function LineFor(p: Participant, eventRecords: seq<AttendanceRecord>): (line: ParticipantLine)
    ensures line.name == p.name
    ensures FirstRecordOf(eventRecords, p.id).None? ==> line == ParticipantLine(p.name, false, NotMarked, None)
    ensures FirstRecordOf(eventRecords, p.id).Some? ==>
              var x := FirstRecordOf(eventRecords, p.id).value;
              x in eventRecords && x.participantId == p.id &&
              line.isPresent == x.isPresent && line.status == x.status &&
              line.checkIn == (if x.checkInTime.Some? then Some(x.checkInTime.value.time) else None)
  {
    match FirstRecordOf(eventRecords, p.id)
    case None => ParticipantLine(p.name, false, NotMarked, None)
    case Some(x) =>
      ParticipantLine(p.name, x.isPresent, x.status,
                      if x.checkInTime.Some? then Some(x.checkInTime.value.time) else None)
  }

  /** `selectedEventRecords`: nothing while no (truthy) id is selected. */
  function SelectedEventRecords(selected: Option<string>, records: seq<AttendanceRecord>): (r: seq<AttendanceRecord>)
    ensures selected.None? || selected.value == "" ==> r == []
    ensures selected.Some? && selected.value != "" ==>
              forall x :: x in r <==> x in records && x.eventId == selected.value
  {
    if selected.None? || selected.value == "" then [] else RecordsFor(records, selected.value)
  }

  /** The detail dialog: one line per roster participant, in roster order. */
  function DetailRows(participants: seq<Participant>, selectedRecords: seq<AttendanceRecord>): (rows: seq<ParticipantLine>)
    ensures |rows| == |participants|
    ensures forall i :: 0 <= i < |participants| ==>
              rows[i].name == participants[i].name && rows[i] == LineFor(participants[i], selectedRecords)
  {
    seq(|participants|, i requires 0 <= i < |participants| => LineFor(participants[i], selectedRecords))
  }

  lemma NothingSelectedShowsUnmarkedRoster(participants: seq<Participant>, records: seq<AttendanceRecord>)
    ensures forall line :: line in DetailRows(participants, SelectedEventRecords(None, records)) ==>
              !line.isPresent && line.status == NotMarked && line.checkIn.None?
  {
  }

  const CsvHeader: seq<string> := ["Name", "Present", "Status", "Check-in Time"]

  /** The four CSV fields of a line, unquoted. */
  function CsvFields(line: ParticipantLine): (fields: seq<string>)
    ensures |fields| == |CsvHeader| && fields[0] == line.name
    ensures fields[1] == (if line.isPresent then "Yes" else "No")
    ensures fields[2] == StatusText(line.status)
    ensures fields[3] == (if line.checkIn.Some? then line.checkIn.value else "-")
  {
    [line.name, if line.isPresent then "Yes" else "No", StatusText(line.status),
     if line.checkIn.Some? then line.checkIn.value else "-"]
  }

  /** The CSV lines after the header, one per roster participant. */
  function CsvRows(participants: seq<Participant>, eventRecords: seq<AttendanceRecord>): (rows: seq<string>)
    ensures |rows| == |participants|
    ensures forall i :: 0 <= i < |participants| ==>
              rows[i] == Join(CsvFields(LineFor(participants[i], eventRecords)), ',')
  {
    seq(|participants|, i requires 0 <= i < |participants| =>
      Join(CsvFields(LineFor(participants[i], eventRecords)), ','))
  }

  /**
   * `csvContent`: the header line, then the participants' lines, fields
   * joined by ',' and lines by '\n'.
   */
  function CsvText(participants: seq<Participant>, eventRecords: seq<AttendanceRecord>): (text: string)
    ensures |participants| == 0 ==> text == "Name,Present,Status,Check-in Time"
    ensures |participants| > 0 ==>
              text == "Name,Present,Status,Check-in Time" + "\n" + Join(CsvRows(participants, eventRecords), '\n')
  {
    var rows := CsvRows(participants, eventRecords);
    var lines := [Join(CsvHeader, ',')] + rows;
    HeaderLine();
    assert lines[1..] == rows;
    Join(lines, '\n')
  }

  /** The header fields joined by ','. */
  lemma HeaderLine()
    ensures Join(CsvHeader, ',') == "Name,Present,Status,Check-in Time"
  {
    assert CsvHeader[1..][1..][1..] == ["Check-in Time"];
    assert CsvHeader[1..][1..] == ["Status", "Check-in Time"];
    assert CsvHeader[1..] == ["Present", "Status", "Check-in Time"];
  }

  /** `handleExport`: the CSV text, or nothing for an id that has no summary. */
  function Export(summaries: seq<Summary>, records: seq<AttendanceRecord>,
                  participants: seq<Participant>, eventId: string): (r: Option<string>)
    ensures r.None? <==> forall s :: s in summaries ==> s.occurrence.id != eventId
    ensures r.Some? ==> r.value == CsvText(participants, RecordsFor(records, eventId))
  {
    match Find(summaries, (s: Summary) => s.occurrence.id == eventId)
    case None => None
    case Some(_) => Some(CsvText(participants, RecordsFor(records, eventId)))
  }

  /** A text is safe as an unquoted CSV field when it holds no ',' and no line break. */
  predicate PlainField(t: string) {
    ',' !in t && '\n' !in t
  }

  /** Whether every name and every recorded time of day is a plain field. */
  predicate PlainTexts(participants: seq<Participant>, eventRecords: seq<AttendanceRecord>) {
    && (forall p :: p in participants ==> PlainField(p.name))
    && (forall x :: x in eventRecords && x.checkInTime.Some? ==> PlainField(x.checkInTime.value.time))
  }

  /**
   * The layout of the export: splitting at line breaks gives the header and
   * then one line per participant in roster order, and splitting a line at
   * commas gives back its four fields, as long as no name or time of day
   * holds a comma or a line break.
   */
  lemma {:induction false} CsvLayout(participants: seq<Participant>, eventRecords: seq<AttendanceRecord>)
    requires PlainTexts(participants, eventRecords)
    ensures Split(CsvText(participants, eventRecords), '\n') ==
              [Join(CsvHeader, ',')] + CsvRows(participants, eventRecords)
    ensures Split(Join(CsvHeader, ','), ',') == CsvHeader
    ensures forall i :: 0 <= i < |participants| ==>
              Split(CsvRows(participants, eventRecords)[i], ',') == CsvFields(LineFor(participants[i], eventRecords))
  {
    var rows := CsvRows(participants, eventRecords);
    forall i | 0 <= i < |participants|
      ensures Split(rows[i], ',') == CsvFields(LineFor(participants[i], eventRecords))
      ensures '\n' !in rows[i]
    {
      assert participants[i] in participants;
      CsvRowLayout(participants[i], eventRecords);
    }
    HeaderLayout();
    var lines := [Join(CsvHeader, ',')] + rows;
    forall k | 0 <= k < |lines| ensures '\n' !in lines[k] {
      if k > 0 { assert lines[k] == rows[k - 1]; }
    }
    SplitJoin(lines, '\n');
  }

  lemma HeaderLayout()
    ensures Split(Join(CsvHeader, ','), ',') == CsvHeader
    ensures '\n' !in Join(CsvHeader, ',')
  {
    SplitJoin(CsvHeader, ',');
    NoBreakInJoin(CsvHeader, ',');
  }

  lemma CsvRowLayout(p: Participant, eventRecords: seq<AttendanceRecord>)
    requires PlainField(p.name)
    requires forall x :: x in eventRecords && x.checkInTime.Some? ==> PlainField(x.checkInTime.value.time)
    ensures Split(Join(CsvFields(LineFor(p, eventRecords)), ','), ',') == CsvFields(LineFor(p, eventRecords))
    ensures '\n' !in Join(CsvFields(LineFor(p, eventRecords)), ',')
  {
    var fields := CsvFields(LineFor(p, eventRecords));
    FieldsArePlain(p, eventRecords);
    SplitJoin(fields, ',');
    NoBreakInJoin(fields, ',');
  }

  lemma FieldsArePlain(p: Participant, eventRecords: seq<AttendanceRecord>)
    requires PlainField(p.name)
    requires forall x :: x in eventRecords && x.checkInTime.Some? ==> PlainField(x.checkInTime.value.time)
    ensures forall k :: 0 <= k < 4 ==> PlainField(CsvFields(LineFor(p, eventRecords))[k])
  {
    var line := LineFor(p, eventRecords);
    assert PlainField(StatusText(line.status)) by {
      match line.status
      case OnTime =>
      case Late =>
      case NotMarked =>
    }
  }

  lemma {:induction false} NoBreakInJoin(parts: seq<string>, sep: char)
    requires sep != '\n'
    requires forall k :: 0 <= k < |parts| ==> '\n' !in parts[k]
    ensures '\n' !in Join(parts, sep)
  {
    if |parts| > 1 {
      NoBreakInJoin(parts[1..], sep);
    }
  }

  /**
   * Commas are not quoted: a name holding one comes back from the line as
   * two fields, so the line has five pieces instead of four.
   */
  lemma UnquotedCommaSplitsName()
    ensures var p := Participant("1", "Fauzi, Ahmad", "", "");
            Split(CsvRows([p], [])[0], ',') == ["Fauzi", " Ahmad", "No", "Not Marked", "-"]
  {
    var p := Participant("1", "Fauzi, Ahmad", "", "");
    assert LineFor(p, []) == ParticipantLine(p.name, false, NotMarked, None);
    assert p.name == "Fauzi" + [','] + " Ahmad";
    JoinSplitsFirst("Fauzi", " Ahmad", ["No", "Not Marked", "-"], ',');
    SplitJoin(["Fauzi", " Ahmad", "No", "Not Marked", "-"], ',');
  }

  lemma JoinSplitsFirst(a: string, b: string, rest: seq<string>, sep: char)
    requires |rest| >= 1
    ensures Join([a + [sep] + b] + rest, sep) == Join([a, b] + rest, sep)
  {
    assert ([a + [sep] + b] + rest)[1..] == rest;
    assert ([a, b] + rest)[1..] == [b] + rest;
    assert ([b] + rest)[1..] == rest;
  }
}
