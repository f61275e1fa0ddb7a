/**
 * The attendance-entry screen (src/pages/FillAttendance.tsx): pick an
 * occurrence, edit one working row per participant, and save the rows
 * back as that occurrence's records.
 */
module FillAttendance {
  import opened Wrappers
  import opened Types
  import opened Seqs
  import opened Text
  import opened Occurrences
  import opened AppStore
  import opened Absences

  /** `AttendanceItem`: one working row; an unset check-in is the empty text. */
  datatype AttendanceItem = AttendanceItem(
    participantId: string,
    participantName: string,
    isPresent: bool,
    status: Status,
    checkInTime: string)

  /** The rows are the roster's participants, one each, in roster order. */
  ghost predicate RowsFollowRoster(rows: seq<AttendanceItem>, participants: seq<Participant>) {
    && |rows| == |participants|
    && forall i :: 0 <= i < |rows| ==>
         rows[i].participantId == participants[i].id && rows[i].participantName == participants[i].name
  }

  /** Two row lists that differ at most in presence, status and check-in. */
  ghost predicate SameParticipants(rows: seq<AttendanceItem>, rows': seq<AttendanceItem>) {
    && |rows| == |rows'|
    && forall i :: 0 <= i < |rows| ==>
         rows[i].participantId == rows'[i].participantId && rows[i].participantName == rows'[i].participantName
  }

  lemma SameParticipantsKeepsRoster(rows: seq<AttendanceItem>, rows': seq<AttendanceItem>, participants: seq<Participant>)
    requires RowsFollowRoster(rows, participants) && SameParticipants(rows, rows')
    ensures RowsFollowRoster(rows', participants)
  {
  }

  /**
   * The initial row of one participant: copied from the first of the
   * occurrence's records naming them, or the default unmarked row.
   */
  function RowFor(p: Participant, eventRecords: seq<AttendanceRecord>): (a: AttendanceItem)
    ensures a.participantId == p.id && a.participantName == p.name
    ensures FirstRecordOf(eventRecords, p.id).None? ==>
              !a.isPresent && a.status == NotMarked && a.checkInTime == ""
    ensures FirstRecordOf(eventRecords, p.id).Some? ==>
              var x := FirstRecordOf(eventRecords, p.id).value;
              a.isPresent == x.isPresent && a.status == x.status &&
              a.checkInTime == (if x.checkInTime.Some? then x.checkInTime.value.time else "")
  {
    match FirstRecordOf(eventRecords, p.id)
    case None => AttendanceItem(p.id, p.name, false, NotMarked, "")
    case Some(x) =>
      AttendanceItem(p.id, p.name, x.isPresent, x.status,
                     if x.checkInTime.Some? then x.checkInTime.value.time else "")
  }

  /** `initialData` of `handleSelectEvent`: one row per roster participant, in roster order. */
  function InitialRows(participants: seq<Participant>, records: seq<AttendanceRecord>, eventId: string): (rows: seq<AttendanceItem>)
    ensures RowsFollowRoster(rows, participants)
    ensures forall i :: 0 <= i < |participants| ==>
              rows[i] == RowFor(participants[i], RecordsFor(records, eventId))
  {
    var eventRecords := RecordsFor(records, eventId);
    seq(|participants|, i requires 0 <= i < |participants| => RowFor(participants[i], eventRecords))
  }

  /** A participant without any record for the occurrence starts unmarked. */
  lemma UnrecordedParticipantStartsUnmarked(participants: seq<Participant>, records: seq<AttendanceRecord>,
                                            eventId: string, i: nat)
    requires i < |participants|
    requires forall x :: x in records && x.eventId == eventId ==> x.participantId != participants[i].id
    ensures var a := InitialRows(participants, records, eventId)[i];
            !a.isPresent && a.status == NotMarked && a.checkInTime == ""
  {
  }

  /** A row after being ticked present: 'On time', keeping a check-in already set. */
  function MarkedPresent(a: AttendanceItem, now: Clock): (b: AttendanceItem)
    ensures b.participantId == a.participantId && b.participantName == a.participantName
    ensures b.isPresent && b.status == OnTime && b.checkInTime != ""
    ensures a.checkInTime != "" ==> b.checkInTime == a.checkInTime
  {
    a.(isPresent := true, status := OnTime, checkInTime := if a.checkInTime != "" then a.checkInTime else now)
  }

  /** A row after being unticked: 'Not Marked' and its check-in cleared. */
  function MarkedAbsent(a: AttendanceItem): (b: AttendanceItem)
    ensures b.participantId == a.participantId && b.participantName == a.participantName
    ensures !b.isPresent && b.status == NotMarked && b.checkInTime == ""
  {
    a.(isPresent := false, status := NotMarked, checkInTime := "")
  }

  /** `handleMarkAllPresent`: every row present and on time; a set check-in stays, an empty one becomes `now`. */
  function MarkAllPresent(rows: seq<AttendanceItem>, now: Clock): (r: seq<AttendanceItem>)
    ensures SameParticipants(rows, r)
    ensures forall i :: 0 <= i < |r| ==> r[i].isPresent && r[i].status == OnTime
    ensures forall i :: 0 <= i < |r| ==>
              r[i].checkInTime == (if rows[i].checkInTime != "" then rows[i].checkInTime else now)
  {
    seq(|rows|, i requires 0 <= i < |rows| => MarkedPresent(rows[i], now))
  }

  /** `handleTogglePresent`: only the rows of that participant change. */
  function TogglePresent(rows: seq<AttendanceItem>, participantId: string, isPresent: bool, now: Clock): (r: seq<AttendanceItem>)
    ensures SameParticipants(rows, r)
    ensures forall i :: 0 <= i < |r| && rows[i].participantId != participantId ==> r[i] == rows[i]
    ensures forall i :: 0 <= i < |r| && rows[i].participantId == participantId ==>
              r[i].isPresent == isPresent &&
              r[i].status == (if isPresent then OnTime else NotMarked) &&
              r[i].checkInTime == (if !isPresent then "" else if rows[i].checkInTime != "" then rows[i].checkInTime else now)
  {
    seq(|rows|, i requires 0 <= i < |rows| =>
      if rows[i].participantId != participantId then rows[i]
      else if isPresent then MarkedPresent(rows[i], now)
      else MarkedAbsent(rows[i]))
  }

  /** `handleStatusChange`: the status of that participant's rows, nothing else. */
  function ChangeStatus(rows: seq<AttendanceItem>, participantId: string, status: Status): (r: seq<AttendanceItem>)
    ensures SameParticipants(rows, r)
    ensures forall i :: 0 <= i < |r| ==>
              r[i] == if rows[i].participantId == participantId then rows[i].(status := status) else rows[i]
  {
    seq(|rows|, i requires 0 <= i < |rows| =>
      if rows[i].participantId == participantId then rows[i].(status := status) else rows[i])
  }

  /** `handleCheckInTimeChange`: the check-in of that participant's rows, nothing else. */
  function ChangeCheckInTime(rows: seq<AttendanceItem>, participantId: string, time: string): (r: seq<AttendanceItem>)
    ensures SameParticipants(rows, r)
    ensures forall i :: 0 <= i < |r| ==>
              r[i] == if rows[i].participantId == participantId then rows[i].(checkInTime := time) else rows[i]
  {
    seq(|rows|, i requires 0 <= i < |rows| =>
      if rows[i].participantId == participantId then rows[i].(checkInTime := time) else rows[i])
  }

  /** Marking everyone present twice is marking them once. */
  lemma MarkAllPresentIdempotent(rows: seq<AttendanceItem>, now: Clock, later: Clock)
    ensures MarkAllPresent(MarkAllPresent(rows, now), later) == MarkAllPresent(rows, now)
  {
  }

  /** Mark-all does to every row what ticking that row alone does. */
  lemma MarkAllIsToggleOfEveryRow(rows: seq<AttendanceItem>, now: Clock, i: nat)
    requires i < |rows|
    ensures MarkAllPresent(rows, now)[i] == TogglePresent(rows, rows[i].participantId, true, now)[i]
  {
  }

  /**
   * Unticking and ticking a participant again discards a custom check-in:
   * the row is 'On time' at the new current time.
   */
  lemma ToggleOffThenOn(rows: seq<AttendanceItem>, participantId: string, earlier: Clock, now: Clock, i: nat)
    requires i < |rows| && rows[i].participantId == participantId
    ensures var r := TogglePresent(TogglePresent(rows, participantId, false, earlier), participantId, true, now);
            r[i].isPresent && r[i].status == OnTime && r[i].checkInTime == now
  {
  }

  /** The name test of the search box: ASCII-case-insensitive substring. */
  predicate NameMatches(a: AttendanceItem, query: string) {
    Contains(Lower(a.participantName), Lower(query))
  }

  function MatchesQuery(query: string): AttendanceItem -> bool {
    (a: AttendanceItem) => NameMatches(a, query)
  }

  /**
   * `filteredAttendance`: the working rows whose name contains the query,
   * in their order; an empty query shows every row.
   */
  function FilteredRows(rows: seq<AttendanceItem>, query: string): (r: seq<AttendanceItem>)
    ensures query == "" ==> r == rows
    ensures forall a :: a in r <==> a in rows && NameMatches(a, query)
  {
    if query == "" then
      assert forall a :: NameMatches(a, query) by {
        forall a ensures NameMatches(a, query) { EmptyIsContained(Lower(a.participantName)); }
      }
      rows
    else Filter(rows, MatchesQuery(query))
  }

  lemma FilteredRowsIsSubsequence(rows: seq<AttendanceItem>, query: string)
    ensures IsSubsequence(FilteredRows(rows, query), rows)
  {
    if query == "" {
      FilterKeepsAll(rows, MatchesQuery(query));
      FilterIsSubsequence(rows, MatchesQuery(query));
    } else {
      FilterIsSubsequence(rows, MatchesQuery(query));
    }
  }

  predicate IsPresentRow(a: AttendanceItem) {
    a.isPresent
  }

  /** `presentCount`: the number of rows ticked present. */
  function PresentRows(rows: seq<AttendanceItem>): (n: nat)
    ensures n <= |rows|
    ensures n == |rows| <==> forall a :: a in rows ==> a.isPresent
    ensures n == 0 <==> forall a :: a in rows ==> !a.isPresent
  {
    var present := Filter(rows, IsPresentRow);
    FilterKeepsAll(rows, IsPresentRow);
    assert present == [] <==> forall a :: a in rows ==> !a.isPresent by {
      if present != [] { assert present[0] in present; }
    }
    |present|
  }

  /** Counting present rows distributes over concatenation. */
  lemma PresentRowsConcat(a: seq<AttendanceItem>, b: seq<AttendanceItem>)
    ensures PresentRows(a + b) == PresentRows(a) + PresentRows(b)
  {
    FilterConcat(a, b, IsPresentRow);
  }

  /** A single row counts 1 when ticked and 0 otherwise. */
  lemma PresentRowsSingle(a: AttendanceItem)
    ensures PresentRows([a]) == if a.isPresent then 1 else 0
  {
    assert [a][1..] == [];
  }

  lemma MarkAllPresentCountsEveryone(rows: seq<AttendanceItem>, now: Clock)
    ensures PresentRows(MarkAllPresent(rows, now)) == |rows|
  {
    var r := MarkAllPresent(rows, now);
    assert forall a :: a in r ==> a.isPresent;
  }

  /** The record saved for one row; its check-in is the row's time on the occurrence's day. */
  function RecordOf(o: Occurrence, a: AttendanceItem): AttendanceRecord {
    AttendanceRecord(
      "ar-" + o.id + "-" + a.participantId, a.participantId, a.participantName,
      o.id, o.kind, a.isPresent, a.status,
      if a.checkInTime != "" then Some(Timestamp(o.date.day, a.checkInTime)) else None)
  }

  /** `newRecords`: one record per working row, in row order. */
  function NewRecords(o: Occurrence, rows: seq<AttendanceItem>): (r: seq<AttendanceRecord>)
    ensures |r| == |rows|
    ensures forall x :: x in r ==> x.eventId == o.id && x.eventType == o.kind
    ensures forall i :: 0 <= i < |rows| ==>
              && r[i].id == "ar-" + o.id + "-" + rows[i].participantId
              && r[i].participantId == rows[i].participantId
              && r[i].participantName == rows[i].participantName
              && r[i].isPresent == rows[i].isPresent && r[i].status == rows[i].status
              && (r[i].checkInTime.None? <==> rows[i].checkInTime == "")
              && (r[i].checkInTime.Some? ==> r[i].checkInTime.value == Timestamp(o.date.day, rows[i].checkInTime))
  {
    seq(|rows|, i requires 0 <= i < |rows| => RecordOf(o, rows[i]))
  }

  /**
   * The store update of `handleSaveAttendance`: drop every record of the
   * occurrence, keep the others in order, append the new ones.
   */
  function ReplaceRecordsForEvent(records: seq<AttendanceRecord>, eventId: string,
                                  newRecords: seq<AttendanceRecord>): (r: seq<AttendanceRecord>)
    ensures |r| == |Filter(records, NotForEvent(eventId))| + |newRecords|
    ensures IsSubsequence(r[..|r| - |newRecords|], records)
    ensures forall x :: x in r[..|r| - |newRecords|] <==> x in records && x.eventId != eventId
    ensures r[|r| - |newRecords|..] == newRecords
  {
    var kept := Filter(records, NotForEvent(eventId));
    FilterIsSubsequence(records, NotForEvent(eventId));
    assert (kept + newRecords)[..|kept|] == kept;
    assert (kept + newRecords)[|kept|..] == newRecords;
    kept + newRecords
  }

  /**
   * After the replace, the occurrence's records are exactly the new ones
   * (in order), and every other occurrence's records are what they were.
   */
  lemma {:induction false} ReplaceRecordsForEventEffect(records: seq<AttendanceRecord>, eventId: string,
                                                        newRecords: seq<AttendanceRecord>)
    requires forall x :: x in newRecords ==> x.eventId == eventId
    ensures RecordsFor(ReplaceRecordsForEvent(records, eventId, newRecords), eventId) == newRecords
    ensures forall other :: other != eventId ==>
              RecordsFor(ReplaceRecordsForEvent(records, eventId, newRecords), other) == RecordsFor(records, other)
  {
    var kept := Filter(records, NotForEvent(eventId));
    FilterConcat(kept, newRecords, ForEvent(eventId));
    FilterKeepsAll(newRecords, ForEvent(eventId));
    FilterNone(kept, ForEvent(eventId));
    forall other | other != eventId
      ensures RecordsFor(kept + newRecords, other) == RecordsFor(records, other)
    {
      FilterConcat(kept, newRecords, ForEvent(other));
      FilterStronger(records, NotForEvent(eventId), ForEvent(other));
      FilterNone(newRecords, ForEvent(other));
    }
  }

  /** Replacing an occurrence's records twice with the same records is replacing them once. */
  lemma {:induction false} ReplaceRecordsForEventIdempotent(records: seq<AttendanceRecord>, eventId: string,
                                                            newRecords: seq<AttendanceRecord>)
    requires forall x :: x in newRecords ==> x.eventId == eventId
    ensures var once := ReplaceRecordsForEvent(records, eventId, newRecords);
            ReplaceRecordsForEvent(once, eventId, newRecords) == once
  {
    var kept := Filter(records, NotForEvent(eventId));
    FilterConcat(kept, newRecords, NotForEvent(eventId));
    FilterStronger(records, NotForEvent(eventId), NotForEvent(eventId));
    FilterNone(newRecords, NotForEvent(eventId));
  }

  /**
   * The whole save: nothing happens unless a (non-empty) id is selected and
   * names an attendable occurrence; otherwise that occurrence's records are
   * replaced by the working rows.
   */
  function SaveRecords(records: seq<AttendanceRecord>, occurrences: seq<Occurrence>,
                       selected: Option<string>, rows: seq<AttendanceItem>): (r: seq<AttendanceRecord>)
    ensures selected.None? || selected.value == "" ==> r == records
    ensures selected.Some? && FindOccurrence(occurrences, selected.value).None? ==> r == records
    ensures selected.Some? && selected.value != "" && FindOccurrence(occurrences, selected.value).Some? ==>
              RecordsFor(r, selected.value) == NewRecords(FindOccurrence(occurrences, selected.value).value, rows) &&
              forall other :: other != selected.value ==> RecordsFor(r, other) == RecordsFor(records, other)
  {
    if selected.None? || selected.value == "" then records
    else
      match FindOccurrence(occurrences, selected.value)
      case None => records
      case Some(o) =>
        ReplaceRecordsForEventEffect(records, selected.value, NewRecords(o, rows));
        ReplaceRecordsForEvent(records, selected.value, NewRecords(o, rows))
  }

  /** Saving twice is saving once. */
  lemma SaveIdempotent(records: seq<AttendanceRecord>, occurrences: seq<Occurrence>,
                       selected: Option<string>, rows: seq<AttendanceItem>)
    ensures var once := SaveRecords(records, occurrences, selected, rows);
            SaveRecords(once, occurrences, selected, rows) == once
  {
    if selected.Some? && selected.value != "" && FindOccurrence(occurrences, selected.value).Some? {
      var o := FindOccurrence(occurrences, selected.value).value;
      ReplaceRecordsForEventIdempotent(records, selected.value, NewRecords(o, rows));
    }
  }

  /**
   * Selecting the occurrence again right after saving it loads exactly the
   * rows that were saved, provided the rows follow a roster without
   * repeated ids.
   */
  lemma {:induction false} SaveThenSelectRestoresRows(records: seq<AttendanceRecord>, o: Occurrence,
                                                      rows: seq<AttendanceItem>, participants: seq<Participant>)
    requires RowsFollowRoster(rows, participants)
    requires Distinct(ParticipantIds(participants))
    ensures InitialRows(participants, ReplaceRecordsForEvent(records, o.id, NewRecords(o, rows)), o.id) == rows
  {
    var saved := NewRecords(o, rows);
    var after := ReplaceRecordsForEvent(records, o.id, saved);
    ReplaceRecordsForEventEffect(records, o.id, saved);
    assert RecordsFor(after, o.id) == saved;
    var loaded := InitialRows(participants, after, o.id);
    forall i | 0 <= i < |rows| ensures loaded[i] == rows[i] {
      SavedRowReloads(o, rows, participants, i);
    }
  }

  /** One participant's row, rebuilt from the records saved for the rows. */
  lemma SavedRowReloads(o: Occurrence, rows: seq<AttendanceItem>, participants: seq<Participant>, i: nat)
    requires RowsFollowRoster(rows, participants)
    requires Distinct(ParticipantIds(participants))
    requires i < |rows|
    ensures RowFor(participants[i], NewRecords(o, rows)) == rows[i]
  {
    var saved := NewRecords(o, rows);
    var p := participants[i];
    forall j | 0 <= j < i ensures !ForParticipant(p.id)(saved[j]) {
      assert ParticipantIds(participants)[j] != ParticipantIds(participants)[i];
    }
    FindFirst(saved, ForParticipant(p.id), i);
  }

  /**
   * Right after a save of rows that follow the roster, the saved
   * occurrence's summary on the absences report is in range: no more
   * present than participants, no negative absences, a percentage within
   * 0..100.
   */
  lemma SavedSummaryInRange(records: seq<AttendanceRecord>, o: Occurrence,
                            rows: seq<AttendanceItem>, participants: seq<Participant>)
    requires RowsFollowRoster(rows, participants)
    ensures var s := Summarize(o, ReplaceRecordsForEvent(records, o.id, NewRecords(o, rows)), participants);
            s.presentCount <= |participants| && s.absentCount >= 0 && 0 <= s.percentage <= 100
  {
    ReplaceRecordsForEventEffect(records, o.id, NewRecords(o, rows));
  }

  lemma NewRecordsCons(o: Occurrence, rows: seq<AttendanceItem>)
    requires rows != []
    ensures NewRecords(o, rows) == [RecordOf(o, rows[0])] + NewRecords(o, rows[1..])
  {
  }

  /**
   * The counter on the entry screen is the present count the absences
   * report shows for the occurrence once the rows are saved.
   */
  lemma {:induction false} SavedPresentCount(o: Occurrence, rows: seq<AttendanceItem>)
    ensures PresentCount(NewRecords(o, rows)) == PresentRows(rows)
  {
    if rows != [] {
      var head, tail := RecordOf(o, rows[0]), NewRecords(o, rows[1..]);
      calc {
        PresentCount(NewRecords(o, rows));
        { NewRecordsCons(o, rows); }
        PresentCount([head] + tail);
        { PresentCountConcat([head], tail); PresentCountSingle(head); }
        (if rows[0].isPresent then 1 else 0) + PresentCount(tail);
        { SavedPresentCount(o, rows[1..]); }
        (if rows[0].isPresent then 1 else 0) + PresentRows(rows[1..]);
        { PresentRowsSingle(rows[0]); PresentRowsConcat([rows[0]], rows[1..]); }
        PresentRows([rows[0]] + rows[1..]);
        { assert [rows[0]] + rows[1..] == rows; }
        PresentRows(rows);
      }
    }
  }

  /**
   * An absent row is 'Not Marked' with no check-in: the screen disables the
   * status and check-in inputs of a row that is not ticked present.
   */
  predicate AbsentRowsUnmarked(rows: seq<AttendanceItem>) {
    forall i :: 0 <= i < |rows| && !rows[i].isPresent ==> rows[i].status == NotMarked && rows[i].checkInTime == ""
  }

  /** The same rule for stored records: an absent record is 'Not Marked' with no check-in. */
  predicate AbsentRecordsUnmarked(records: seq<AttendanceRecord>) {
    forall x :: x in records && !x.isPresent ==> x.status == NotMarked && x.checkInTime.None?
  }

  /** The participant's rows are ticked present, so their status and check-in inputs are enabled. */
  predicate EditableRows(rows: seq<AttendanceItem>, participantId: string) {
    forall i :: 0 <= i < |rows| && rows[i].participantId == participantId ==> rows[i].isPresent
  }

  lemma InitialRowsUnmarked(participants: seq<Participant>, records: seq<AttendanceRecord>, eventId: string)
    requires AbsentRecordsUnmarked(records)
    ensures AbsentRowsUnmarked(InitialRows(participants, records, eventId))
  {
  }

  lemma MarkAllPresentUnmarked(rows: seq<AttendanceItem>, now: Clock)
    ensures AbsentRowsUnmarked(MarkAllPresent(rows, now))
  {
  }

  lemma TogglePresentUnmarked(rows: seq<AttendanceItem>, participantId: string, isPresent: bool, now: Clock)
    requires AbsentRowsUnmarked(rows)
    ensures AbsentRowsUnmarked(TogglePresent(rows, participantId, isPresent, now))
  {
  }

  /** A status edit through the enabled input keeps absent rows unmarked. */
  lemma ChangeStatusUnmarked(rows: seq<AttendanceItem>, participantId: string, status: Status)
    requires AbsentRowsUnmarked(rows) && EditableRows(rows, participantId)
    ensures AbsentRowsUnmarked(ChangeStatus(rows, participantId, status))
  {
  }

  /** A check-in edit through the enabled input keeps absent rows unmarked. */
  lemma ChangeCheckInTimeUnmarked(rows: seq<AttendanceItem>, participantId: string, time: string)
    requires AbsentRowsUnmarked(rows) && EditableRows(rows, participantId)
    ensures AbsentRowsUnmarked(ChangeCheckInTime(rows, participantId, time))
  {
  }

  /** Without the gate the rule breaks: an absent row's status can be set to 'Late'. */
  lemma UngatedStatusEditBreaksRule(a: AttendanceItem)
    requires !a.isPresent
    ensures !AbsentRowsUnmarked(ChangeStatus([a], a.participantId, Late))
  {
    assert ChangeStatus([a], a.participantId, Late)[0].status == Late;
  }

  lemma NewRecordsUnmarked(o: Occurrence, rows: seq<AttendanceItem>)
    requires AbsentRowsUnmarked(rows)
    ensures AbsentRecordsUnmarked(NewRecords(o, rows))
  {
    var nr := NewRecords(o, rows);
    forall x | x in nr && !x.isPresent ensures x.status == NotMarked && x.checkInTime.None? {
      var k :| 0 <= k < |nr| && nr[k] == x;
    }
  }

  lemma ReplaceRecordsUnmarked(records: seq<AttendanceRecord>, eventId: string, newRecords: seq<AttendanceRecord>)
    requires AbsentRecordsUnmarked(records) && AbsentRecordsUnmarked(newRecords)
    ensures AbsentRecordsUnmarked(ReplaceRecordsForEvent(records, eventId, newRecords))
  {
    var r := ReplaceRecordsForEvent(records, eventId, newRecords);
    var n := |r| - |newRecords|;
    assert r == r[..n] + r[n..];
    forall x | x in r && !x.isPresent ensures x.status == NotMarked && x.checkInTime.None? {
      assert x in r[..n] || x in r[n..];
    }
  }

  /** Saving rows that keep the rule keeps it for the stored records. */
  lemma SaveRecordsUnmarked(records: seq<AttendanceRecord>, occurrences: seq<Occurrence>,
                            selected: Option<string>, rows: seq<AttendanceItem>)
    requires AbsentRecordsUnmarked(records) && AbsentRowsUnmarked(rows)
    ensures AbsentRecordsUnmarked(SaveRecords(records, occurrences, selected, rows))
  {
    if selected.Some? && selected.value != "" && FindOccurrence(occurrences, selected.value).Some? {
      var o := FindOccurrence(occurrences, selected.value).value;
      NewRecordsUnmarked(o, rows);
      ReplaceRecordsUnmarked(records, selected.value, NewRecords(o, rows));
    }
  }

  /** The screen's state; the record list lives in the shared store. */
  class AttendanceEntry {
    const store: Store
    var selectedEventId: Option<string>
    var searchQuery: string
    var rows: seq<AttendanceItem>

    /**
     * While an occurrence is selected there is one row per roster
     * participant; absent rows and absent stored records are unmarked.
     */
    ghost predicate Valid()
      reads this, store
    {
      && (selectedEventId.Some? ==> RowsFollowRoster(rows, store.participants))
      && AbsentRowsUnmarked(rows)
      && AbsentRecordsUnmarked(store.records)
    }

    constructor (store: Store)
      requires AbsentRecordsUnmarked(store.records)
      ensures this.store == store
      ensures selectedEventId == None && searchQuery == "" && rows == []
      ensures Valid()
    {
      this.store := store;
      selectedEventId := None;
      searchQuery := "";
      rows := [];
    }

    /** `handleSelectEvent`: select the occurrence and load its rows from the store. */
    method SelectEvent(eventId: string)
      requires Valid()
      modifies this
      ensures selectedEventId == Some(eventId) && searchQuery == old(searchQuery)
      ensures rows == InitialRows(store.participants, store.records, eventId)
      ensures Valid()
    {
      selectedEventId := Some(eventId);
      rows := InitialRows(store.participants, store.records, eventId);
      InitialRowsUnmarked(store.participants, store.records, eventId);
    }

    /** The back button: return to the list, keeping the rows in memory. */
    method Back()
      requires Valid()
      modifies this`selectedEventId
      ensures selectedEventId == None
      ensures Valid()
    {
      selectedEventId := None;
    }

    method SetSearchQuery(query: string)
      requires Valid()
      modifies this`searchQuery
      ensures searchQuery == query
      ensures Valid()
    {
      searchQuery := query;
    }

    method MarkAll(now: Clock)
      requires Valid()
      modifies this`rows
      ensures rows == MarkAllPresent(old(rows), now)
      ensures Valid()
    {
      rows := MarkAllPresent(rows, now);
      MarkAllPresentUnmarked(old(rows), now);
    }

    method Toggle(participantId: string, isPresent: bool, now: Clock)
      requires Valid()
      modifies this`rows
      ensures rows == TogglePresent(old(rows), participantId, isPresent, now)
      ensures Valid()
    {
      rows := TogglePresent(rows, participantId, isPresent, now);
      TogglePresentUnmarked(old(rows), participantId, isPresent, now);
    }

    /** The status select, enabled only on rows ticked present. */
    method SetStatus(participantId: string, status: Status)
      requires Valid() && EditableRows(rows, participantId)
      modifies this`rows
      ensures rows == ChangeStatus(old(rows), participantId, status)
      ensures Valid()
    {
      rows := ChangeStatus(rows, participantId, status);
      ChangeStatusUnmarked(old(rows), participantId, status);
    }

    /** The check-in input, enabled only on rows ticked present. */
    method SetCheckInTime(participantId: string, time: string)
      requires Valid() && EditableRows(rows, participantId)
      modifies this`rows
      ensures rows == ChangeCheckInTime(old(rows), participantId, time)
      ensures Valid()
    {
      rows := ChangeCheckInTime(rows, participantId, time);
      ChangeCheckInTimeUnmarked(old(rows), participantId, time);
    }

    /**
     * `handleSaveAttendance`: only the store's record list changes; the
     * saved occurrence's summary on the absences report is then in range.
     */
    method Save()
      requires Valid()
      modifies store`records
      ensures store.records ==
                SaveRecords(old(store.records), AttendableOccurrences(store.events, store.weeklyClasses),
                            selectedEventId, rows)
      ensures Valid()
      ensures selectedEventId.Some? && selectedEventId.value != "" &&
              FindOccurrence(AttendableOccurrences(store.events, store.weeklyClasses), selectedEventId.value).Some? ==>
                var s := Summarize(FindOccurrence(AttendableOccurrences(store.events, store.weeklyClasses),
                                                  selectedEventId.value).value, store.records, store.participants);
                s.absentCount >= 0 && 0 <= s.percentage <= 100
    {
      var occurrences := AttendableOccurrences(store.events, store.weeklyClasses);
      SaveRecordsUnmarked(store.records, occurrences, selectedEventId, rows);
      if selectedEventId.Some? && selectedEventId.value != "" && FindOccurrence(occurrences, selectedEventId.value).Some? {
        SavedSummaryInRange(store.records, FindOccurrence(occurrences, selectedEventId.value).value, rows, store.participants);
      }
      store.records := SaveRecords(store.records, occurrences, selectedEventId, rows);
    }
  }
}
