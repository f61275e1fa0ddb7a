/**
 * The catalogue of attendable occurrences that the attendance-entry screen
 * (src/pages/FillAttendance.tsx) and the absences report
 * (src/pages/Absences.tsx) both build, and the record lookups they share.
 */
module Occurrences {
  import opened Wrappers
  import opened Types
  import opened Seqs

  /** One row of `allEvents`: an event or a weekly class, uniformly. */
  datatype Occurrence = Occurrence(
    id: string,
    name: string,
    description: string,
    date: Timestamp,
    kind: OccurrenceKind)

  /** An event shows up in the catalogue with its start date as date. */
  function FromEvent(e: Event): Occurrence {
    Occurrence(e.id, e.name, e.description, e.startDate, EventKind)
  }

  /** A weekly class shows up with its topic as description. */
  function FromClass(c: WeeklyClass): Occurrence {
    Occurrence(c.id, c.name, c.topic, c.date, WeeklyClassKind)
  }

  predicate IsAttendable(e: Event) {
    e.attendanceEnabled
  }

  function EventsAsOccurrences(events: seq<Event>): (r: seq<Occurrence>)
    ensures |r| == |events|
    ensures forall i :: 0 <= i < |events| ==> r[i] == FromEvent(events[i])
  {
    seq(|events|, i requires 0 <= i < |events| => FromEvent(events[i]))
  }

  function ClassesAsOccurrences(classes: seq<WeeklyClass>): (r: seq<Occurrence>)
    ensures |r| == |classes|
    ensures forall i :: 0 <= i < |classes| ==> r[i] == FromClass(classes[i])
  {
    seq(|classes|, i requires 0 <= i < |classes| => FromClass(classes[i]))
  }

  /**
   * `allEvents`: the attendance-enabled events in their original order,
   * then every weekly class in its original order.
   */
  function AttendableOccurrences(events: seq<Event>, classes: seq<WeeklyClass>): (r: seq<Occurrence>)
    ensures |r| == |Filter(events, IsAttendable)| + |classes| <= |events| + |classes|
    ensures r[..|r| - |classes|] == EventsAsOccurrences(Filter(events, IsAttendable))
    ensures r[|r| - |classes|..] == ClassesAsOccurrences(classes)
    ensures forall i :: 0 <= i < |r| ==> (r[i].kind == EventKind <==> i < |r| - |classes|)
    ensures forall o :: o in r && o.kind == EventKind ==>
              exists e :: e in events && e.attendanceEnabled && o == FromEvent(e)
    ensures forall e :: e in events && e.attendanceEnabled ==> FromEvent(e) in r
  {
    var front := EventsAsOccurrences(Filter(events, IsAttendable));
    var r := front + ClassesAsOccurrences(classes);
    assert r[..|front|] == front;
    assert forall e :: e in events && e.attendanceEnabled ==> FromEvent(e) in front by {
      forall e | e in events && e.attendanceEnabled ensures FromEvent(e) in front {
        var f := Filter(events, IsAttendable);
        assert e in f;
        var k :| 0 <= k < |f| && f[k] == e;
        assert front[k] == FromEvent(e);
      }
    }
    assert forall o :: o in front ==> exists e :: e in events && e.attendanceEnabled && o == FromEvent(e) by {
      forall o | o in front ensures exists e :: e in events && e.attendanceEnabled && o == FromEvent(e) {
        var f := Filter(events, IsAttendable);
        var k :| 0 <= k < |front| && front[k] == o;
        assert f[k] in f;
      }
    }
    r
  }

  /** The test `e => e.id === id`. */
  function HasId(id: string): Occurrence -> bool {
    (o: Occurrence) => o.id == id
  }

  /** `allEvents.find(e => e.id === id)`: the first occurrence with the id. */
  function FindOccurrence(occurrences: seq<Occurrence>, id: string): (r: Option<Occurrence>)
    ensures r.Some? ==> r.value in occurrences && r.value.id == id
    ensures r.Some? ==> exists i :: FirstMatchAt(occurrences, HasId(id), i) && occurrences[i] == r.value
    ensures r.None? <==> forall o :: o in occurrences ==> o.id != id
  {
    Find(occurrences, HasId(id))
  }

  /** The test `r => r.eventId === eventId`. */
  function ForEvent(eventId: string): AttendanceRecord -> bool {
    (x: AttendanceRecord) => x.eventId == eventId
  }

  /** The test `r => r.eventId !== eventId`. */
  function NotForEvent(eventId: string): AttendanceRecord -> bool {
    (x: AttendanceRecord) => x.eventId != eventId
  }

  /** The test `r => r.participantId === participantId`. */
  function ForParticipant(participantId: string): AttendanceRecord -> bool {
    (x: AttendanceRecord) => x.participantId == participantId
  }

  predicate IsPresentRecord(x: AttendanceRecord) {
    x.isPresent
  }

  /** `attendanceRecords.filter(r => r.eventId === eventId)`: the occurrence's records, in their order. */
  function RecordsFor(records: seq<AttendanceRecord>, eventId: string): (r: seq<AttendanceRecord>)
    ensures forall x :: x in r <==> x in records && x.eventId == eventId
    ensures IsSubsequence(r, records)
  {
    FilterIsSubsequence(records, ForEvent(eventId));
    Filter(records, ForEvent(eventId))
  }

  /** `records.find(r => r.participantId === participantId)`: the participant's first record. */
  function FirstRecordOf(records: seq<AttendanceRecord>, participantId: string): (r: Option<AttendanceRecord>)
    ensures r.Some? ==> r.value in records && r.value.participantId == participantId
    ensures r.Some? ==> exists i :: FirstMatchAt(records, ForParticipant(participantId), i) && records[i] == r.value
    ensures r.None? <==> forall x :: x in records ==> x.participantId != participantId
  {
    Find(records, ForParticipant(participantId))
  }

  /** `records.filter(r => r.isPresent).length`. */
  function PresentCount(records: seq<AttendanceRecord>): (n: nat)
    ensures n <= |records|
    ensures n == 0 <==> forall x :: x in records ==> !x.isPresent
  {
    var present := Filter(records, IsPresentRecord);
    assert present == [] <==> forall x :: x in records ==> !x.isPresent by {
      if present != [] { assert present[0] in present; }
    }
    |present|
  }

  /** Counting present records distributes over concatenation. */
  lemma PresentCountConcat(a: seq<AttendanceRecord>, b: seq<AttendanceRecord>)
    ensures PresentCount(a + b) == PresentCount(a) + PresentCount(b)
  {
    FilterConcat(a, b, IsPresentRecord);
  }

  /** A single record counts 1 when present and 0 otherwise. */
  lemma PresentCountSingle(x: AttendanceRecord)
    ensures PresentCount([x]) == if x.isPresent then 1 else 0
  {
    assert [x][1..] == [];
  }
}
